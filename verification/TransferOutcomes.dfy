/** How a call on transfers may end. */
module TransferOutcomes {
  // An authorisation is refused for what is unknown or not granted in the log as the call read it, for an unknown
  // recipient, or for a nonce in use; an envelope for its shape, for what its authorisation says, or for being
  // too late. Nothing else keeps a call from succeeding.

  import opened Text
  import opened EffectiveConsent
  import opened Transfers

  function Until(dir: Directory, s0: State, actions: seq<Action>, k: nat): State
    requires k <= |actions|
  {
    Run(dir, s0, actions[..k])
  }

  lemma EarlierUntil(dir: Directory, s0: State, actions: seq<Action>, n: nat, k: nat)
    requires k <= n <= |actions|
    ensures Until(dir, s0, actions[..n], k) == Until(dir, s0, actions, k)
  {
    assert actions[..n][..k] == actions[..k];
  }

  lemma {:induction false} LogIdsStayDistinct(dir: Directory, s0: State, actions: seq<Action>)
    requires s0.log == []
    ensures DistinctIds(Run(dir, s0, actions).log)
    decreases |actions|
  {
    if actions != [] {
      LogIdsStayDistinct(dir, s0, actions[..|actions| - 1]);
    }
  }

  // ---- Authorising ----------------------------------------------------------

  predicate Asks(s: State, a: Action, id: nat) {
    a == Advance(id) && id in s.calls && s.calls[id].Authorise? && s.calls[id].apc.Asking?
  }

  predicate Mints(s: State, a: Action, id: nat) {
    a == Advance(id) && id in s.calls && s.calls[id].Authorise? && s.calls[id].apc.MayMint?
  }

  function AskedAt(dir: Directory, s0: State, actions: seq<Action>, id: nat): (k: int)
    ensures -1 <= k < |actions|
  {
    if actions == [] then -1
    else
      var n := |actions| - 1;
      if Asks(Until(dir, s0, actions, n), actions[n], id) then n else AskedAt(dir, s0, actions[..n], id)
  }

  function MintTriedAt(dir: Directory, s0: State, actions: seq<Action>, id: nat): (k: int)
    ensures -1 <= k < |actions|
  {
    if actions == [] then -1
    else
      var n := |actions| - 1;
      if Mints(Until(dir, s0, actions, n), actions[n], id) then n else MintTriedAt(dir, s0, actions[..n], id)
  }

  /** The log and the directory allow it, as things stand. */
  predicate Allows(dir: Directory, s: State, id: nat) {
    && id in s.calls && s.calls[id].Authorise?
    && AllKnown(dir, s.calls[id].ask) && Decided(dir, s.log, s.calls[id].ask, GRANTED)
    && ActiveRecipient(dir, s.calls[id].ask)
  }

  /** The refusal that is right, as things stand. */
  predicate Refuses(dir: Directory, s: State, id: nat, reason: Refusal) {
    && id in s.calls && s.calls[id].Authorise?
    && var ask := s.calls[id].ask;
       match reason
       case SiteNotFound => !SiteIsTheirs(dir, ask)
       case PrincipalNotFound => SiteIsTheirs(dir, ask) && !PersonKnown(dir, ask)
       case PurposeNotFound => SiteIsTheirs(dir, ask) && PersonKnown(dir, ask) && !PurposeKnown(dir, ask)
       case NoConsentDecision => AllKnown(dir, ask) && NeverDecided(dir, s.log, ask)
       case ConsentDenied => AllKnown(dir, ask) && Decided(dir, s.log, ask, Status.DENIED)
       case ConsentWithdrawn => AllKnown(dir, ask) && Decided(dir, s.log, ask, WITHDRAWN)
       case UnknownRecipient => AllKnown(dir, ask) && Decided(dir, s.log, ask, GRANTED) && !ActiveRecipient(dir, ask)
       case NonceInUse => false
  }

  predicate NonceTaken(s: State, id: nat) {
    id in s.calls && s.calls[id].Authorise? && exists a :: a in s.tables.authorisations && a.nonce == s.calls[id].ask.nonce
  }

  predicate IsMinted(s: State, id: nat) { id in s.calls && s.calls[id].Authorise? && s.calls[id].apc.Minted? }

  predicate IsDenied(s: State, id: nat, reason: Refusal) {
    id in s.calls && s.calls[id].Authorise? && s.calls[id].apc == Denied(reason)
  }

  predicate MayGoOn(s: State, id: nat) {
    id in s.calls && s.calls[id].Authorise? && (s.calls[id].apc.MayMint? || s.calls[id].apc.Minted? || s.calls[id].apc == Denied(NonceInUse))
  }

  /** What the call is told: to go on, or why not. */
  function Told(dir: Directory, s: State, ask: Ask): AuthorisePc {
    match Rule(dir, s.log, ask)
    case Refused(reason) => Denied(reason)
    case Permitted(principalId, consentRecordId) =>
      if ActiveRecipient(dir, ask)
      then MayMint(principalId, dir.recipients[(ask.organisationId, ask.recipientCode)].id, consentRecordId, |s.log|)
      else Denied(UnknownRecipient)
  }

  lemma AskTells(dir: Directory, s: State, a: Action, id: nat)
    requires Asks(s, a, id)
    ensures Step(dir, s, a) == s.(calls := s.calls[id := s.calls[id].(apc := Told(dir, s, s.calls[id].ask))])
  {
  }

  lemma ToldRightly(dir: Directory, s: State, id: nat)
    requires id in s.calls && s.calls[id].Authorise? && DistinctIds(s.log)
    ensures var pc := Told(dir, s, s.calls[id].ask);
            && (pc.MayMint? || pc.Denied?) && (pc.MayMint? <==> Allows(dir, s, id))
  {
    RulingIs(dir, s.log, s.calls[id].ask);
  }

  lemma RefusedRightly(dir: Directory, s: State, id: nat, reason: Refusal)
    requires id in s.calls && s.calls[id].Authorise? && DistinctIds(s.log)
    ensures Told(dir, s, s.calls[id].ask) == Denied(reason) <==> Refuses(dir, s, id, reason)
  {
    RulingIs(dir, s.log, s.calls[id].ask);
  }

  lemma AskStep(dir: Directory, s: State, a: Action, id: nat, reason: Refusal)
    requires Asks(s, a, id) && DistinctIds(s.log)
    ensures var t := Step(dir, s, a);
            && id in t.calls && t.calls[id].Authorise?
            && (t.calls[id].apc.MayMint? <==> Allows(dir, s, id))
            && (t.calls[id].apc.MayMint? || t.calls[id].apc.Denied?)
            && (t.calls[id].apc == Denied(reason) <==> Refuses(dir, s, id, reason))
  {
    AskTells(dir, s, a, id);
    ToldRightly(dir, s, id);
    RefusedRightly(dir, s, id, reason);
  }

  lemma MintStep(dir: Directory, s: State, a: Action, id: nat)
    requires Mints(s, a, id)
    ensures var t := Step(dir, s, a);
            && id in t.calls && t.calls[id].Authorise?
            && t.calls[id].apc == if NonceTaken(s, id) then Denied(NonceInUse)
                                  else Minted(|s.tables.authorisations|, s.calls[id].apc.readAt, |s.log|)
  {
  }

  lemma OtherStep(dir: Directory, s: State, a: Action, id: nat)
    requires !Asks(s, a, id) && !Mints(s, a, id) && id in s.calls && s.calls[id].Authorise?
    ensures id in Step(dir, s, a).calls && Step(dir, s, a).calls[id] == s.calls[id]
  {
  }

  lemma JustBegun(dir: Directory, s: State, a: Action, id: nat)
    requires id !in s.calls || !s.calls[id].Authorise?
    ensures var t := Step(dir, s, a); id in t.calls && t.calls[id].Authorise? ==> t.calls[id].apc.Asking?
  {
  }

  // ---- From beginning to end ------------------------------------------------

  /** Where an authorising call stands, by how it was answered and whether its nonce was free. */
  ghost predicate StandsAsAnswered(dir: Directory, s0: State, actions: seq<Action>, id: nat, reason: Refusal) {
    var s, asked, tried := Run(dir, s0, actions), AskedAt(dir, s0, actions, id), MintTriedAt(dir, s0, actions, id);
    && (MayGoOn(s, id) <==> asked >= 0 && Allows(dir, Until(dir, s0, actions, asked), id))
    && (IsMinted(s, id) <==> tried >= 0 && !NonceTaken(Until(dir, s0, actions, tried), id))
    && (IsDenied(s, id, reason) <==>
          if reason == NonceInUse then tried >= 0 && NonceTaken(Until(dir, s0, actions, tried), id)
          else asked >= 0 && Refuses(dir, Until(dir, s0, actions, asked), id, reason))
  }

  lemma AskedEarlier(dir: Directory, s0: State, actions: seq<Action>, id: nat)
    requires actions != []
    ensures var n := |actions| - 1;
            var asked, tried := AskedAt(dir, s0, actions[..n], id), MintTriedAt(dir, s0, actions[..n], id);
            && (asked >= 0 ==> Until(dir, s0, actions[..n], asked) == Until(dir, s0, actions, asked))
            && (tried >= 0 ==> Until(dir, s0, actions[..n], tried) == Until(dir, s0, actions, tried))
  {
    var n := |actions| - 1;
    var asked, tried := AskedAt(dir, s0, actions[..n], id), MintTriedAt(dir, s0, actions[..n], id);
    if asked >= 0 { EarlierUntil(dir, s0, actions, n, asked); }
    if tried >= 0 { EarlierUntil(dir, s0, actions, n, tried); }
  }

  /** Asked once and, if let on, tried once. */
  lemma {:induction false} AskedOnce(dir: Directory, s0: State, actions: seq<Action>, id: nat)
    requires s0.calls == map[]
    ensures var s := Run(dir, s0, actions);
            && (AskedAt(dir, s0, actions, id) >= 0 ==> id in s.calls && s.calls[id].Authorise? && !s.calls[id].apc.Asking?)
            && (MintTriedAt(dir, s0, actions, id) >= 0 ==>
                  id in s.calls && s.calls[id].Authorise? && !s.calls[id].apc.Asking? && !s.calls[id].apc.MayMint?)
    decreases |actions|
  {
    if actions != [] {
      var n := |actions| - 1;
      var s := Until(dir, s0, actions, n);
      AskedOnce(dir, s0, actions[..n], id);
      if Asks(s, actions[n], id) {
        AskTells(dir, s, actions[n], id);
      } else if Mints(s, actions[n], id) {
        MintStep(dir, s, actions[n], id);
      } else if id in s.calls && s.calls[id].Authorise? {
        OtherStep(dir, s, actions[n], id);
      }
    }
  }

  lemma StandsAfterAsking(dir: Directory, s0: State, actions: seq<Action>, id: nat, reason: Refusal)
    requires s0.calls == map[] && s0.log == [] && actions != []
    requires var n := |actions| - 1;
             StandsAsAnswered(dir, s0, actions[..n], id, reason) && Asks(Until(dir, s0, actions, n), actions[n], id)
    ensures StandsAsAnswered(dir, s0, actions, id, reason)
  {
    var n := |actions| - 1;
    AskedEarlier(dir, s0, actions, id);
    AskedOnce(dir, s0, actions[..n], id);
    LogIdsStayDistinct(dir, s0, actions[..n]);
    AskStep(dir, Until(dir, s0, actions, n), actions[n], id, reason);
    assert AskedAt(dir, s0, actions, id) == n && MintTriedAt(dir, s0, actions, id) < 0;
  }

  lemma StandsAfterMinting(dir: Directory, s0: State, actions: seq<Action>, id: nat, reason: Refusal)
    requires s0.calls == map[] && actions != []
    requires var n := |actions| - 1;
             StandsAsAnswered(dir, s0, actions[..n], id, reason) && Mints(Until(dir, s0, actions, n), actions[n], id)
    ensures StandsAsAnswered(dir, s0, actions, id, reason)
  {
    var n := |actions| - 1;
    AskedEarlier(dir, s0, actions, id);
    MintStep(dir, Until(dir, s0, actions, n), actions[n], id);
    assert MintTriedAt(dir, s0, actions, id) == n && AskedAt(dir, s0, actions, id) == AskedAt(dir, s0, actions[..n], id);
  }

  lemma StandsOtherwise(dir: Directory, s0: State, actions: seq<Action>, id: nat, reason: Refusal)
    requires s0.calls == map[] && actions != []
    requires var n := |actions| - 1; var s := Until(dir, s0, actions, n);
             StandsAsAnswered(dir, s0, actions[..n], id, reason) && !Asks(s, actions[n], id) && !Mints(s, actions[n], id)
    ensures StandsAsAnswered(dir, s0, actions, id, reason)
  {
    var n := |actions| - 1;
    var s := Until(dir, s0, actions, n);
    AskedEarlier(dir, s0, actions, id);
    if id in s.calls && s.calls[id].Authorise? {
      OtherStep(dir, s, actions[n], id);
    } else {
      JustBegun(dir, s, actions[n], id);
    }
    assert AskedAt(dir, s0, actions, id) == AskedAt(dir, s0, actions[..n], id);
    assert MintTriedAt(dir, s0, actions, id) == MintTriedAt(dir, s0, actions[..n], id);
  }

  /**
   * After every interleaving: a call was let go on exactly when the log and the directory allowed it as it asked, it
   * minted exactly when its nonce was free as it tried, and it was denied for a reason exactly when that was so.
   */
  lemma {:induction false} EndsAsAnswered(dir: Directory, s0: State, actions: seq<Action>, id: nat, reason: Refusal)
    requires s0.calls == map[] && s0.log == []
    ensures StandsAsAnswered(dir, s0, actions, id, reason)
    decreases |actions|
  {
    if actions != [] {
      var n := |actions| - 1;
      var s := Until(dir, s0, actions, n);
      EndsAsAnswered(dir, s0, actions[..n], id, reason);
      if Asks(s, actions[n], id) {
        StandsAfterAsking(dir, s0, actions, id, reason);
      } else if Mints(s, actions[n], id) {
        StandsAfterMinting(dir, s0, actions, id, reason);
      } else {
        StandsOtherwise(dir, s0, actions, id, reason);
      }
    }
  }

  function StepsLeft(pc: AuthorisePc): nat {
    match pc
    case Asking => 2 case MayMint(_, _, _, _) => 1 case _ => 0
  }

  function OwnSteps(actions: seq<Action>, id: nat): nat {
    if actions == [] then 0
    else OwnSteps(actions[..|actions| - 1], id) + if actions[|actions| - 1] == Advance(id) then 1 else 0
  }

  lemma StepUsesOne(dir: Directory, s: State, a: Action, id: nat)
    requires id in s.calls && s.calls[id].Authorise?
    ensures var t := Step(dir, s, a);
            && id in t.calls && t.calls[id].Authorise?
            && StepsLeft(t.calls[id].apc) <= (if a == Advance(id) && StepsLeft(s.calls[id].apc) > 0 then StepsLeft(s.calls[id].apc) - 1
                                              else StepsLeft(s.calls[id].apc))
  {
    if Asks(s, a, id) {
      AskTells(dir, s, a, id);
    } else if Mints(s, a, id) {
      MintStep(dir, s, a, id);
    } else {
      OtherStep(dir, s, a, id);
    }
  }

  lemma {:induction false} StepsRunDown(dir: Directory, s: State, actions: seq<Action>, id: nat)
    requires id in s.calls && s.calls[id].Authorise?
    ensures var t := Run(dir, s, actions);
            && id in t.calls && t.calls[id].Authorise?
            && StepsLeft(t.calls[id].apc) <= if OwnSteps(actions, id) >= 2 then 0 else 2 - OwnSteps(actions, id)
    decreases |actions|
  {
    if actions != [] {
      var n := |actions| - 1;
      StepsRunDown(dir, s, actions[..n], id);
      StepUsesOne(dir, Run(dir, s, actions[..n]), actions[n], id);
    }
  }

  lemma {:induction false} RunAppend(dir: Directory, s: State, first: seq<Action>, rest: seq<Action>)
    ensures Run(dir, s, first + rest) == Run(dir, Run(dir, s, first), rest)
    decreases |rest|
  {
    if rest == [] {
      assert first + rest == first;
    } else {
      assert (first + rest)[..|first + rest| - 1] == first + rest[..|rest| - 1];
      RunAppend(dir, s, first, rest[..|rest| - 1]);
    }
  }

  /** After two steps of its own a call has minted exactly when it was allowed as it asked and its nonce was free as it tried. */
  lemma MintedUnlessRefused(dir: Directory, s0: State, before: seq<Action>, after: seq<Action>, id: nat)
    requires Initial(s0) && OwnSteps(after, id) >= 2
    requires id in Run(dir, s0, before).calls && Run(dir, s0, before).calls[id].Authorise?
    ensures var asked, tried := AskedAt(dir, s0, before + after, id), MintTriedAt(dir, s0, before + after, id);
            && asked >= 0
            && (Allows(dir, Until(dir, s0, before + after, asked), id) ==> tried >= 0)
            && (IsMinted(Run(dir, s0, before + after), id) <==>
                  Allows(dir, Until(dir, s0, before + after, asked), id) && !NonceTaken(Until(dir, s0, before + after, tried), id))
  {
    var actions := before + after;
    RunAppend(dir, s0, before, after);
    StepsRunDown(dir, Run(dir, s0, before), after, id);
    EndsAsAnswered(dir, s0, actions, id, NonceInUse);
    AnsweredAreAsked(dir, s0, actions, id);
  }

  lemma {:induction false} AnsweredAreAsked(dir: Directory, s0: State, actions: seq<Action>, id: nat)
    requires s0.calls == map[]
    ensures var s := Run(dir, s0, actions);
            && (id in s.calls && s.calls[id].Authorise? && !s.calls[id].apc.Asking? ==> AskedAt(dir, s0, actions, id) >= 0)
            && (MintTriedAt(dir, s0, actions, id) >= 0 ==> MayGoOn(s, id))
            && (MayGoOn(s, id) && !s.calls[id].apc.MayMint? ==> MintTriedAt(dir, s0, actions, id) >= 0)
    decreases |actions|
  {
    if actions != [] {
      var n := |actions| - 1;
      var s := Until(dir, s0, actions, n);
      AnsweredAreAsked(dir, s0, actions[..n], id);
      if Asks(s, actions[n], id) {
        AskTells(dir, s, actions[n], id);
        NoNonceYet(dir, s, s.calls[id].ask);
      } else if Mints(s, actions[n], id) {
        MintStep(dir, s, actions[n], id);
      } else if id in s.calls && s.calls[id].Authorise? {
        OtherStep(dir, s, actions[n], id);
      } else {
        JustBegun(dir, s, actions[n], id);
      }
    }
  }

  /** What happens around the calls: time passes, decisions are made, calls arrive, and a commit may be refused once. */
  lemma AroundTheCalls(dir: Directory, s: State, a: Action)
    requires !a.Advance?
    ensures var t := Step(dir, s, a);
            && t.tables == s.tables
            && t.clock == (if a.Tick? && a.to > s.clock then a.to else s.clock)
            && t.log == s.log + (if a.Decide? && forall r :: r in s.log ==> r.id != a.record.id then [a.record] else [])
            && (forall id :: id in t.calls <==> id in s.calls || (a.Begin? && a.id == id && JustArrived(a.call)))
            && (forall id :: id in t.calls && id !in s.calls ==>
                  t.calls[id] == if a.call.Authorise? then a.call.(arrivedAt := |s.log|) else a.call)
            && (forall id :: id in s.calls ==>
                  if a == Refuse(id) && s.calls[id].Submit? && s.calls[id].rpc.MayCommit?
                  then t.calls[id] == s.calls[id].(rpc := Conflict) else t.calls[id] == s.calls[id])
  {
  }

  lemma NoNonceYet(dir: Directory, s: State, ask: Ask)
    ensures Told(dir, s, ask) != Denied(NonceInUse) && !Told(dir, s, ask).Minted? && !Told(dir, s, ask).Asking?
  {
  }

  // ---- Submitting -----------------------------------------------------------

  predicate SubmitsAt(s: State, id: nat) { id in s.calls && s.calls[id].Submit? }

  /** Looking: the envelope's shape, then the row under id, organisation and nonce, then whether it is used up. */
  lemma LookStep(dir: Directory, s: State, id: nat)
    requires SubmitsAt(s, id) && s.calls[id].rpc.Arrived?
    ensures var t, input := Step(dir, s, Advance(id)), s.calls[id].submission;
            && SubmitsAt(t, id) && t.tables == s.tables
            && var pc := t.calls[id].rpc;
            && (pc == InvalidEnvelope <==> !Sound(dir, input.envelope))
            && (pc == NotFound <==> Sound(dir, input.envelope) && !Found(s.tables, input))
            && (pc == Consumed <==> Sound(dir, input.envelope) && FoundAs(s.tables, input, CONSUMED))
            && (pc.HasRow? <==> Sound(dir, input.envelope) && (FoundAs(s.tables, input, AUTHORISED) || FoundAs(s.tables, input, EXPIRED)))
            && (pc.HasRow? ==> pc.row == s.tables.authorisations[input.authorisationId])
  {
  }

  /** Checking the row that was read against the clock. */
  lemma CheckStep(dir: Directory, s: State, id: nat)
    requires SubmitsAt(s, id) && s.calls[id].rpc.HasRow?
    ensures var t, row := Step(dir, s, Advance(id)), s.calls[id].rpc.row;
            && SubmitsAt(t, id) && t.tables == s.tables
            && t.calls[id].rpc == if row.status == EXPIRED then Expired
                                  else if s.clock < row.expiresAt then MayCommit(row, s.clock) else MustExpire(row)
  {
  }

  /** Committing: stored exactly while the authorisation is AUTHORISED, and otherwise nothing is written. */
  lemma CommitStep(dir: Directory, s: State, id: nat)
    requires TablesOk(s.tables) && SubmitsAt(s, id) && s.calls[id].rpc.MayCommit?
    requires s.calls[id].submission.authorisationId < |s.tables.authorisations|
    ensures var t, input := Step(dir, s, Advance(id)), s.calls[id].submission;
            && SubmitsAt(t, id)
            && (t.calls[id].rpc == Stored(|s.tables.transfers|, s.calls[id].rpc.checkedAt) <==> StatusIs(s.tables, input.authorisationId, AUTHORISED))
            && (t.calls[id].rpc == Conflict <==> !StatusIs(s.tables, input.authorisationId, AUTHORISED))
            && (StatusIs(s.tables, input.authorisationId, AUTHORISED) ==> StoredAs(dir, s.tables, t.tables, input))
            && (!StatusIs(s.tables, input.authorisationId, AUTHORISED) ==> t.tables == s.tables)
  {
    CommitGoesThroughIff(s.tables, NewTransfer(dir, s.calls[id].submission));
  }

  /** Expiring: refused only once the authorisation was used. */
  lemma ExpireStep(dir: Directory, s: State, id: nat)
    requires SubmitsAt(s, id) && s.calls[id].rpc.MustExpire?
    requires s.calls[id].submission.authorisationId < |s.tables.authorisations|
    ensures var t, k := Step(dir, s, Advance(id)), s.calls[id].submission.authorisationId;
            && SubmitsAt(t, id)
            && (t.calls[id].rpc == Threw <==> StatusIs(s.tables, k, CONSUMED))
            && (t.calls[id].rpc == Expired <==> !StatusIs(s.tables, k, CONSUMED))
            && (StatusIs(s.tables, k, CONSUMED) ==> t.tables == s.tables)
            && (!StatusIs(s.tables, k, CONSUMED) ==> ExpiredAs(s.tables, t.tables, k))
  {
  }

  // ---- Collecting -----------------------------------------------------------

  predicate CollectsAt(s: State, id: nat) { id in s.calls && s.calls[id].Collect? }

  /** Looking for the envelope: held exactly by the recipient its authorisation names. */
  lemma FetchStep(dir: Directory, s: State, id: nat)
    requires TablesOk(s.tables) && CollectsAt(s, id) && s.calls[id].cpc.Waiting?
    ensures var t, k := Step(dir, s, Advance(id)), s.calls[id].transferId;
            && CollectsAt(t, id) && t.tables == s.tables
            && var named := k < |s.tables.transfers| && AddressedTo(s.tables, s.calls[id].recipientId, k, s.tables.transfers[k].envelope);
            && (t.calls[id].cpc == Missing <==> !named)
            && (named ==> t.calls[id].cpc == Holding(s.tables.transfers[k]))
  {
  }

  /** Handing it over: a first delivery writes the time once, a later one writes nothing. */
  lemma HandOverStep(dir: Directory, s: State, id: nat)
    requires CollectsAt(s, id) && s.calls[id].cpc.Holding? && s.calls[id].transferId < |s.tables.transfers|
    ensures var t, k, row := Step(dir, s, Advance(id)), s.calls[id].transferId, s.calls[id].cpc.row;
            && CollectsAt(t, id)
            && var late := s.tables.transfers[k].status == TransferStatus.FAILED || s.tables.transfers[k].deliveredAt !in {None, Some(s.clock)};
            && (t.calls[id].cpc == CollectPc.Failed <==> row.status != DELIVERED && late)
            && (t.calls[id].cpc == Collected(row.envelope) <==> row.status == DELIVERED || !late)
            && t.tables == if row.status == DELIVERED || late then s.tables else Delivered(s.tables, k, s.clock)
  {
  }
}
