/** How a request under a consent session may end. */
module SessionOutcomes {
  // What a token resolves to, by the row that carries it; that a request let in is charged unless its
  // session was revoked, removed or charged by another since it read, or belongs to somebody else; and
  // what may become of a session.

  import opened Text
  import opened ConsentSessions

  // ---- Resolving a token ----------------------------------------------------

  predicate Carries(row: Session, tokenHash: string) {
    !row.purged && row.tokenHash == tokenHash
  }

  /** The row a token is found in. */
  predicate FoundIn(rows: seq<Session>, k: nat, tokenHash: string) {
    k < |rows| && Carries(rows[k], tokenHash) && forall j :: k < j < |rows| ==> !Carries(rows[j], tokenHash)
  }

  predicate Usable(row: Session, site: string, token: string) {
    |token| > 3 && token[..3] == "cs_" && row.siteId == site && !row.revoked
  }

  lemma {:induction false} FindIs(rows: seq<Session>, tokenHash: string)
    ensures forall k: nat :: FoundIn(rows, k, tokenHash) ==> Find(rows, tokenHash) == Some(k)
    ensures (forall k :: 0 <= k < |rows| ==> !Carries(rows[k], tokenHash)) ==> Find(rows, tokenHash) == None
  {
    if rows != [] {
      var rest := rows[..|rows| - 1];
      FindIs(rest, tokenHash);
      forall k: nat | FoundIn(rows, k, tokenHash) ensures Find(rows, tokenHash) == Some(k) {
        if k < |rest| {
          assert FoundIn(rest, k, tokenHash);
        }
      }
    }
  }

  /** Each answer under its own condition on the row that carries the token. */
  lemma ResolutionIs(digest: string -> string, rows: seq<Session>, site: string, token: string, now: int, k: nat)
    requires FoundIn(rows, k, digest(token))
    ensures var r := Resolution(digest, rows, site, token, now);
            && (r == Refused(InvalidSession) <==> !Usable(rows[k], site, token))
            && (r == Refused(SessionExpired) <==> Usable(rows[k], site, token) && rows[k].expiresAt <= now)
            && (r == Refused(SessionExhausted) <==>
                  Usable(rows[k], site, token) && now < rows[k].expiresAt && rows[k].count >= rows[k].max)
            && (r == Holding(k, rows[k].count) <==>
                  Usable(rows[k], site, token) && now < rows[k].expiresAt && rows[k].count < rows[k].max)
  {
    FindIs(rows, digest(token));
  }

  lemma UnknownTokenIsInvalid(digest: string -> string, rows: seq<Session>, site: string, token: string, now: int)
    requires forall k :: 0 <= k < |rows| ==> !Carries(rows[k], digest(token))
    ensures Resolution(digest, rows, site, token, now) == Refused(InvalidSession)
  {
    FindIs(rows, digest(token));
  }

  // ---- Tokens stay unique ---------------------------------------------------

  predicate TokensUnique(rows: seq<Session>) {
    forall i, j :: 0 <= i < j < |rows| && !rows[i].purged && !rows[j].purged ==> rows[i].tokenHash != rows[j].tokenHash
  }

  lemma {:induction false} RunKeepsTokensUnique(digest: string -> string, s0: State, actions: seq<Action>)
    requires TokensUnique(s0.sessions)
    ensures TokensUnique(Run(digest, s0, actions).sessions)
    decreases |actions|
  {
    if actions != [] {
      var n := |actions| - 1;
      RunKeepsTokensUnique(digest, s0, actions[..n]);
      StepKeepsTokensUnique(digest, Run(digest, s0, actions[..n]), actions[n]);
    }
  }

  lemma StepKeepsTokensUnique(digest: string -> string, s: State, a: Action)
    requires TokensUnique(s.sessions)
    ensures TokensUnique(Step(digest, s, a).sessions)
  {
    if a.Open? {
      FindFinds(s.sessions, a.row.tokenHash);
    }
  }

  predicate Named(rows: seq<Session>, tokenHash: string) {
    exists k :: 0 <= k < |rows| && Carries(rows[k], tokenHash)
  }

  lemma UniqueIsFound(rows: seq<Session>, tokenHash: string) returns (k: nat)
    requires TokensUnique(rows) && Named(rows, tokenHash)
    ensures FoundIn(rows, k, tokenHash)
  {
    k :| 0 <= k < |rows| && Carries(rows[k], tokenHash);
  }

  /** Purging what expired by now lets in exactly whom it would have let in anyway. */
  lemma PurgingRefusesNobody(digest: string -> string, rows: seq<Session>, before: int, site: string, token: string, now: int)
    requires TokensUnique(rows) && before <= now
    ensures var r, later := Resolution(digest, rows, site, token, now), Resolution(digest, Purged(rows, before), site, token, now);
            (r.Holding? || later.Holding? ==> r == later)
  {
    var kept, hash := Purged(rows, before), digest(token);
    if Named(rows, hash) {
      var k := UniqueIsFound(rows, hash);
      ResolutionIs(digest, rows, site, token, now, k);
      if Carries(kept[k], hash) {
        assert FoundIn(kept, k, hash);
        ResolutionIs(digest, kept, site, token, now, k);
      } else {
        assert forall j :: 0 <= j < |kept| ==> !Carries(kept[j], hash);
        UnknownTokenIsInvalid(digest, kept, site, token, now);
      }
    } else {
      UnknownTokenIsInvalid(digest, rows, site, token, now);
      UnknownTokenIsInvalid(digest, kept, site, token, now);
    }
  }

  /** And it removes nothing that expires later. */
  lemma PurgingKeepsTheRest(rows: seq<Session>, before: int, k: nat)
    requires k < |rows|
    ensures |Purged(rows, before)| == |rows|
    ensures Purged(rows, before)[k].purged <==> rows[k].purged || rows[k].expiresAt < before
    ensures Purged(rows, before)[k] == rows[k].(purged := Purged(rows, before)[k].purged)
  {
  }

  // ---- A request from beginning to end --------------------------------------

  function Until(digest: string -> string, s0: State, actions: seq<Action>, k: nat): State
    requires k <= |actions|
  {
    Run(digest, s0, actions[..k])
  }

  predicate Resolves(s: State, a: Action, id: nat) {
    a == Advance(id) && id in s.requests && s.requests[id].pc.Presented?
  }

  predicate Charges(s: State, a: Action, id: nat) {
    a == Advance(id) && id in s.requests && s.requests[id].pc.Holding?
  }

  /** When the request resolved its token, if it has. */
  function ResolvedAt(digest: string -> string, s0: State, actions: seq<Action>, id: nat): (k: int)
    ensures -1 <= k < |actions|
  {
    if actions == [] then -1
    else
      var n := |actions| - 1;
      if Resolves(Until(digest, s0, actions, n), actions[n], id) then n else ResolvedAt(digest, s0, actions[..n], id)
  }

  /** When the request tried to charge its session, if it has. */
  function TriedAt(digest: string -> string, s0: State, actions: seq<Action>, id: nat): (k: int)
    ensures -1 <= k < |actions|
  {
    if actions == [] then -1
    else
      var n := |actions| - 1;
      if Charges(Until(digest, s0, actions, n), actions[n], id) then n else TriedAt(digest, s0, actions[..n], id)
  }

  lemma EarlierUntil(digest: string -> string, s0: State, actions: seq<Action>, n: nat, k: nat)
    requires k <= n <= |actions|
    ensures Until(digest, s0, actions[..n], k) == Until(digest, s0, actions, k)
  {
    assert actions[..n][..k] == actions[..k];
  }

  /** What the request answered when it resolved its token. */
  function Answer(digest: string -> string, s0: State, actions: seq<Action>, id: nat, k: nat): Pc
    requires k < |actions| && Resolves(Until(digest, s0, actions, k), actions[k], id)
  {
    var s := Until(digest, s0, actions, k);
    Resolution(digest, s.sessions, s.requests[id].siteId, s.requests[id].token, s.clock)
  }

  ghost predicate ResolvedTo(digest: string -> string, s0: State, actions: seq<Action>, id: nat, pc: Pc) {
    var k := ResolvedAt(digest, s0, actions, id);
    k >= 0 && Resolves(Until(digest, s0, actions, k), actions[k], id) && Answer(digest, s0, actions, id, k) == pc
  }

  lemma ResolvedEarlier(digest: string -> string, s0: State, actions: seq<Action>, n: nat, id: nat, pc: Pc)
    requires n + 1 == |actions| && !Resolves(Until(digest, s0, actions, n), actions[n], id)
    ensures ResolvedTo(digest, s0, actions, id, pc) <==> ResolvedTo(digest, s0, actions[..n], id, pc)
  {
    var k := ResolvedAt(digest, s0, actions[..n], id);
    if k >= 0 {
      EarlierUntil(digest, s0, actions, n, k);
    }
  }

  /** A request that holds a session resolved to it. */
  lemma {:induction false} HoldsWhatItResolved(digest: string -> string, s0: State, actions: seq<Action>, id: nat)
    requires s0.requests == map[] && id in Run(digest, s0, actions).requests
    requires Run(digest, s0, actions).requests[id].pc.Holding?
    ensures ResolvedTo(digest, s0, actions, id, Run(digest, s0, actions).requests[id].pc)
    decreases |actions|
  {
    if actions != [] {
      var n := |actions| - 1;
      var s := Until(digest, s0, actions, n);
      if Resolves(s, actions[n], id) {
        assert ResolvedAt(digest, s0, actions, id) == n;
      } else {
        HoldsWhatItResolved(digest, s0, actions[..n], id);
        ResolvedEarlier(digest, s0, actions, n, id, s.requests[id].pc);
      }
    }
  }

  /** The session the request holds is its own person's, still live, and still at the count it read. */
  predicate StillGood(s: State, id: nat) {
    && id in s.requests && s.requests[id].pc.Holding?
    && var k := s.requests[id].pc.session;
       && k < |s.sessions| && s.sessions[k].principalId == s.requests[id].principalId
       && !s.sessions[k].revoked && !s.sessions[k].purged && s.sessions[k].count == s.requests[id].pc.count
  }

  predicate WrongPerson(s: State, id: nat) {
    && id in s.requests && s.requests[id].pc.Holding?
    && var k := s.requests[id].pc.session;
       k >= |s.sessions| || s.sessions[k].principalId != s.requests[id].principalId
  }

  predicate IsCharged(s: State, id: nat) { id in s.requests && s.requests[id].pc.Charged? }

  predicate Mismatches(s: State, id: nat) { id in s.requests && s.requests[id].pc == Refused(PrincipalMismatch) }

  lemma StepCharges(digest: string -> string, s: State, a: Action, id: nat)
    ensures IsCharged(Step(digest, s, a), id) <==> IsCharged(s, id) || (Charges(s, a, id) && StillGood(s, id))
    ensures Mismatches(Step(digest, s, a), id) <==> Mismatches(s, id) || (Charges(s, a, id) && WrongPerson(s, id))
  {
  }

  /**
   * A request is charged exactly when it tried to be while the session it held was its own person's, live, and at
   * the count it had read; it is told that the person differs exactly when that is so.
   */
  lemma {:induction false} ChargedIff(digest: string -> string, s0: State, actions: seq<Action>, id: nat)
    requires s0.requests == map[]
    ensures var k := TriedAt(digest, s0, actions, id);
            && (IsCharged(Run(digest, s0, actions), id) <==> k >= 0 && StillGood(Until(digest, s0, actions, k), id))
            && (Mismatches(Run(digest, s0, actions), id) <==> k >= 0 && WrongPerson(Until(digest, s0, actions, k), id))
    decreases |actions|
  {
    if actions != [] {
      var n := |actions| - 1;
      ChargedIff(digest, s0, actions[..n], id);
      StepCharges(digest, Until(digest, s0, actions, n), actions[n], id);
      var k := TriedAt(digest, s0, actions[..n], id);
      if k >= 0 {
        EarlierUntil(digest, s0, actions, n, k);
      }
    }
  }

  // ---- What becomes of a session --------------------------------------------

  /** Somebody is charged on the session by this step. */
  predicate ChargesOnIt(s: State, a: Action, k: nat) {
    a.Advance? && Charges(s, a, a.id) && StillGood(s, a.id) && s.requests[a.id].pc.session == k
  }

  /** A step leaves a row as it is but for a revocation, a purge past its expiry, or one more charge. */
  lemma StepOnRow(digest: string -> string, s: State, a: Action, k: nat)
    requires k < |s.sessions|
    ensures var t := Step(digest, s, a); var was := s.sessions[k];
            && k < |t.sessions|
            && t.sessions[k] == was.(revoked := was.revoked || a == Revoke(k),
                                     purged := was.purged || (a.Purge? && was.expiresAt < a.before),
                                     count := was.count + if ChargesOnIt(s, a, k) then 1 else 0)
  {
  }

  /** A row is added when one is opened fresh, under a token no row carries; the clock follows every later tick. */
  lemma StepOnTheRest(digest: string -> string, s: State, a: Action)
    ensures var t := Step(digest, s, a);
            && (|t.sessions| > |s.sessions| <==>
                  a.Open? && a.row.count == 0 && !a.row.revoked && !a.row.purged && !Named(s.sessions, a.row.tokenHash))
            && (|t.sessions| > |s.sessions| ==> t.sessions == s.sessions + [a.row])
            && t.clock == (if a.Tick? && a.to > s.clock then a.to else s.clock)
            && (forall id :: id in t.requests <==> id in s.requests || (a.Begin? && a.id == id && a.request.pc.Presented?))
            && (forall id :: id in t.requests && id !in s.requests ==> t.requests[id] == a.request)
  {
    if a.Open? {
      FindFinds(s.sessions, a.row.tokenHash);
    }
  }

  /** The session was there and a revocation of it was among the actions. */
  predicate RevokedIn(digest: string -> string, s0: State, actions: seq<Action>, k: nat) {
    actions != []
    && var n := |actions| - 1;
       RevokedIn(digest, s0, actions[..n], k) || (actions[n] == Revoke(k) && k < |Until(digest, s0, actions, n).sessions|)
  }

  lemma {:induction false} RevokedIff(digest: string -> string, s0: State, actions: seq<Action>, k: nat)
    requires s0.sessions == [] && k < |Run(digest, s0, actions).sessions|
    ensures Run(digest, s0, actions).sessions[k].revoked <==> RevokedIn(digest, s0, actions, k)
    decreases |actions|
  {
    var n := |actions| - 1;
    var s := Until(digest, s0, actions, n);
    StepOnTheRest(digest, s, actions[n]);
    if k < |s.sessions| {
      RevokedIff(digest, s0, actions[..n], k);
      StepOnRow(digest, s, actions[n], k);
    } else {
      NotRevokedBefore(digest, s0, actions[..n], k);
    }
  }

  lemma {:induction false} NotRevokedBefore(digest: string -> string, s0: State, actions: seq<Action>, k: nat)
    requires k >= |Run(digest, s0, actions).sessions|
    ensures !RevokedIn(digest, s0, actions, k)
    decreases |actions|
  {
    if actions != [] {
      var n := |actions| - 1;
      if k < |Run(digest, s0, actions[..n]).sessions| {
        StepOnRow(digest, Run(digest, s0, actions[..n]), actions[n], k);
      }
      NotRevokedBefore(digest, s0, actions[..n], k);
    }
  }

  lemma RevokedIsNotCharged(digest: string -> string, s: State, a: Action, k: nat)
    requires k < |s.sessions| && s.sessions[k].revoked
    ensures ChargesOn(Step(digest, s, a), k) == ChargesOn(s, k)
  {
    var t := Step(digest, s, a);
    forall id ensures id in ChargesOn(t, k) <==> id in ChargesOn(s, k) {
    }
  }

  /** Once revoked, a session is never charged again, whatever requests held it by then. */
  lemma {:induction false} RevocationIsFinal(digest: string -> string, s: State, after: seq<Action>, k: nat)
    requires k < |s.sessions| && s.sessions[k].revoked
    ensures var t := Run(digest, s, after);
            k < |t.sessions| && t.sessions[k].revoked && ChargesOn(t, k) == ChargesOn(s, k)
    decreases |after|
  {
    if after != [] {
      var n := |after| - 1;
      RevocationIsFinal(digest, s, after[..n], k);
      StepOnRow(digest, Run(digest, s, after[..n]), after[n], k);
      RevokedIsNotCharged(digest, Run(digest, s, after[..n]), after[n], k);
    }
  }

  // ---- Three steps are enough -----------------------------------------------

  function StepsLeft(pc: Pc): nat {
    match pc
    case Presented => 3 case Holding(_, _) => 2 case Charged(_, _, false) => 1 case _ => 0
  }

  function OwnSteps(actions: seq<Action>, id: nat): nat {
    if actions == [] then 0
    else OwnSteps(actions[..|actions| - 1], id) + if actions[|actions| - 1] == Advance(id) then 1 else 0
  }

  lemma StepUsesOne(digest: string -> string, s: State, a: Action, id: nat)
    requires id in s.requests
    ensures id in Step(digest, s, a).requests
    ensures var left, now := StepsLeft(s.requests[id].pc), StepsLeft(Step(digest, s, a).requests[id].pc);
            now <= if a == Advance(id) && left > 0 then left - 1 else left
  {
  }

  lemma {:induction false} StepsRunDown(digest: string -> string, s: State, actions: seq<Action>, id: nat)
    requires id in s.requests
    ensures id in Run(digest, s, actions).requests
    ensures StepsLeft(Run(digest, s, actions).requests[id].pc) <= (if OwnSteps(actions, id) >= 3 then 0 else 3 - OwnSteps(actions, id))
    decreases |actions|
  {
    if actions != [] {
      var n := |actions| - 1;
      StepsRunDown(digest, s, actions[..n], id);
      StepUsesOne(digest, Run(digest, s, actions[..n]), actions[n], id);
    }
  }

  predicate Logged(s: State, id: nat) {
    exists i :: 0 <= i < |s.log| && s.log[i].request == id
  }

  lemma {:induction false} WrittenIsLogged(digest: string -> string, s0: State, actions: seq<Action>, id: nat)
    requires s0.requests == map[]
    requires var s := Run(digest, s0, actions); IsCharged(s, id) && s.requests[id].pc.written
    ensures Logged(Run(digest, s0, actions), id)
    decreases |actions|
  {
    if actions != [] {
      var n := |actions| - 1;
      var s, t := Run(digest, s0, actions[..n]), Run(digest, s0, actions);
      assert s.log <= t.log;
      if IsCharged(s, id) && s.requests[id].pc.written {
        WrittenIsLogged(digest, s0, actions[..n], id);
        var i :| 0 <= i < |s.log| && s.log[i].request == id;
        assert t.log[i] == s.log[i];
      } else {
        assert t.log[|s.log|].request == id;
      }
    }
  }

  lemma {:induction false} RunAppend(digest: string -> string, s: State, first: seq<Action>, rest: seq<Action>)
    ensures Run(digest, s, first + rest) == Run(digest, Run(digest, s, first), rest)
    decreases |rest|
  {
    if rest == [] {
      assert first + rest == first;
    } else {
      assert (first + rest)[..|first + rest| - 1] == first + rest[..|rest| - 1];
      RunAppend(digest, s, first, rest[..|rest| - 1]);
    }
  }

  /** After three steps of its own a request has a decision in the log exactly when it was charged; nothing else keeps it out. */
  lemma LoggedUnlessRefused(digest: string -> string, s0: State, before: seq<Action>, after: seq<Action>, id: nat)
    requires Initial(s0) && id in Run(digest, s0, before).requests && OwnSteps(after, id) >= 3
    ensures var k := TriedAt(digest, s0, before + after, id);
            Logged(Run(digest, s0, before + after), id) <==> k >= 0 && StillGood(Until(digest, s0, before + after, k), id)
  {
    var t := Run(digest, s0, before + after);
    RunAppend(digest, s0, before, after);
    StepsRunDown(digest, Run(digest, s0, before), after, id);
    ChargedIff(digest, s0, before + after, id);
    RunKeepsInv(digest, s0, before + after);
    if IsCharged(t, id) {
      WrittenIsLogged(digest, s0, before + after, id);
    }
    if i :| 0 <= i < |t.log| && t.log[i].request == id {
      assert LoggedBy(t, t.log[i]);
    }
  }
}
