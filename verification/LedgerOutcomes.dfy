/** How a call that records consent may end. */
module LedgerOutcomes {
  // Losing a position is never a failure: a call fails, or does not find its principal, exactly when a
  // step of its own met something else. So with at most twelve racing, everyone it meets nothing is recorded.

  import opened Text
  import opened ConsentProof
  import opened ConsentLedger

  /** The actions as far as they have been taken, and the one taken next. */
  function Until(p: Primitives, s0: State, actions: seq<Action>, k: nat): State
    requires k <= |actions|
  {
    Run(p, s0, actions[..k])
  }

  /** A call arrives with its input and nothing done, and disturbs nobody. */
  lemma Arrives(p: Primitives, s: State, id: nat, input: Decision)
    requires id !in s.calls
    ensures var t := Step(p, s, Begin(id, input));
            && t.rows == s.rows && t.principals == s.principals && t.calls.Keys == s.calls.Keys + {id}
            && t.calls[id].input == input && t.calls[id].pc.FindPrincipal? && t.calls[id].attempt == 0
            && forall c :: c in s.calls ==> t.calls[c] == s.calls[c]
  {
  }

  predicate Own(a: Action, id: nat) {
    a.Advance? && a.call == id
  }

  /** The call's own insert fails: for a reason other than a collision, or on a record id that is in use. */
  predicate Stumbles(s: State, id: nat, a: Action) {
    && Own(a, id) && id in s.calls
    && (|| (s.calls[id].pc.CreatePrincipal? && a.fails)
        || (s.calls[id].pc.InsertAt? && (a.fails || exists r :: r in s.rows && r.id == a.newId)))
  }

  /** The principal is not there, and the id minted for it belongs to another one. */
  predicate MintsUsedId(s: State, id: nat, a: Action) {
    && Own(a, id) && id in s.calls && s.calls[id].pc.CreatePrincipal? && !a.fails
    && KeyOf(s.calls[id].input) !in s.principals && exists k :: k in s.principals && s.principals[k] == a.newId
  }

  /** Looking again, the call finds that the principal is still not there. */
  predicate StillMissing(s: State, id: nat, a: Action) {
    && Own(a, id) && id in s.calls && s.calls[id].pc.FindAgain? && KeyOf(s.calls[id].input) !in s.principals
  }

  ghost predicate Stumbled(p: Primitives, s0: State, actions: seq<Action>, id: nat) {
    exists k: nat :: k < |actions| && Stumbles(Until(p, s0, actions, k), id, actions[k])
  }

  ghost predicate MintedUsedId(p: Primitives, s0: State, actions: seq<Action>, id: nat) {
    exists k: nat :: k < |actions| && MintsUsedId(Until(p, s0, actions, k), id, actions[k])
  }

  ghost predicate MissedTwice(p: Primitives, s0: State, actions: seq<Action>, id: nat) {
    exists m: nat :: m < |actions| && StillMissing(Until(p, s0, actions, m), id, actions[m])
  }

  // ---- From one step to the whole run ---------------------------------------

  lemma LastStep(p: Primitives, s0: State, actions: seq<Action>)
    requires actions != []
    ensures var n := |actions| - 1;
            Run(p, s0, actions) == Step(p, Run(p, s0, actions[..n]), actions[n]) && Until(p, s0, actions, n) == Run(p, s0, actions[..n])
  {
    var n := |actions| - 1;
    assert actions == actions[..n] + [actions[n]];
    RunAppend(p, s0, actions[..n], [actions[n]]);
    assert [actions[n]][1..] == [];
  }

  lemma EarlierUntil(p: Primitives, s0: State, actions: seq<Action>, k: nat)
    requires k < |actions|
    ensures Until(p, s0, actions[..|actions| - 1], k) == Until(p, s0, actions, k)
  {
    assert actions[..|actions| - 1][..k] == actions[..k];
  }

  /** What happened at some step happened at the last one or before it. */
  lemma SomeStepSplits(p: Primitives, s0: State, actions: seq<Action>, happens: (State, Action) -> bool)
    requires actions != []
    ensures var n := |actions| - 1;
            (exists k: nat :: k < |actions| && happens(Until(p, s0, actions, k), actions[k])) <==>
            || (exists k: nat :: k < n && happens(Until(p, s0, actions[..n], k), actions[..n][k]))
            || happens(Until(p, s0, actions, n), actions[n])
  {
    var n := |actions| - 1;
    forall k: nat | k < n ensures Until(p, s0, actions[..n], k) == Until(p, s0, actions, k) && actions[..n][k] == actions[k] {
      EarlierUntil(p, s0, actions, k);
    }
    if k: nat :| k < n && happens(Until(p, s0, actions[..n], k), actions[..n][k]) {
      assert k < |actions| && happens(Until(p, s0, actions, k), actions[k]);
    }
    if k: nat :| k < |actions| && happens(Until(p, s0, actions, k), actions[k]) {
      if k < n {
        assert happens(Until(p, s0, actions[..n], k), actions[..n][k]);
      }
    }
  }

  predicate HasFailed(s: State, id: nat) {
    id in s.calls && s.calls[id].pc.Failed?
  }

  predicate IsUnresolved(s: State, id: nat) {
    id in s.calls && s.calls[id].pc.Unresolved?
  }

  lemma NewCallHasJustBegun(p: Primitives, s: State, a: Action, id: nat)
    requires id !in s.calls && id in Step(p, s, a).calls
    ensures Step(p, s, a).calls[id].pc == FindPrincipal
  {
  }

  lemma OwnStepFailsIff(p: Primitives, s: State, a: Action, id: nat)
    requires Own(a, id) && id in s.calls
    ensures HasFailed(Step(p, s, a), id) <==> HasFailed(s, id) || Stumbles(s, id, a)
  {
    if s.calls[id].pc.InsertAt? {
      UsedMeansListed(s.rows, a.newId);
    }
  }

  lemma StepFailsIff(p: Primitives, s: State, a: Action, id: nat)
    ensures HasFailed(Step(p, s, a), id) <==> HasFailed(s, id) || Stumbles(s, id, a)
  {
    if id !in s.calls {
      if id in Step(p, s, a).calls { NewCallHasJustBegun(p, s, a, id); }
    } else if Own(a, id) {
      OwnStepFailsIff(p, s, a, id);
    } else {
      OthersUseNone(p, s, id, a);
    }
  }

  lemma UsedMeansListed(rows: seq<Row>, id: string)
    ensures IdUsed(rows, id) <==> exists r :: r in rows && r.id == id
  {
    if r :| r in rows && r.id == id {
      var i :| 0 <= i < |rows| && rows[i] == r;
    }
  }

  lemma OwnStepMissesIff(p: Primitives, s: State, a: Action, id: nat)
    requires Own(a, id) && id in s.calls
    ensures IsUnresolved(Step(p, s, a), id) <==> IsUnresolved(s, id) || StillMissing(s, id, a)
  {
  }

  lemma StepMissesIff(p: Primitives, s: State, a: Action, id: nat)
    ensures IsUnresolved(Step(p, s, a), id) <==> IsUnresolved(s, id) || StillMissing(s, id, a)
  {
    if id !in s.calls {
      if id in Step(p, s, a).calls { NewCallHasJustBegun(p, s, a, id); }
    } else if Own(a, id) {
      OwnStepMissesIff(p, s, a, id);
    } else {
      OthersUseNone(p, s, id, a);
    }
  }

  lemma {:induction false} FailedSince(p: Primitives, s0: State, actions: seq<Action>, id: nat)
    ensures HasFailed(Run(p, s0, actions), id) <==> HasFailed(s0, id) || Stumbled(p, s0, actions, id)
    decreases |actions|
  {
    if actions != [] {
      var n := |actions| - 1;
      LastStep(p, s0, actions);
      FailedSince(p, s0, actions[..n], id);
      StepFailsIff(p, Until(p, s0, actions, n), actions[n], id);
      SomeStepSplits(p, s0, actions, (s: State, a: Action) => Stumbles(s, id, a));
    }
  }

  /** A call fails exactly when an insert of its own fails otherwise than by losing a position: losing one it retries. */
  lemma FailedIff(p: Primitives, s0: State, actions: seq<Action>, id: nat)
    requires Initial(p, s0)
    ensures HasFailed(Run(p, s0, actions), id) <==> Stumbled(p, s0, actions, id)
  {
    FailedSince(p, s0, actions, id);
  }

  lemma {:induction false} UnresolvedSince(p: Primitives, s0: State, actions: seq<Action>, id: nat)
    ensures IsUnresolved(Run(p, s0, actions), id) <==> IsUnresolved(s0, id) || MissedTwice(p, s0, actions, id)
    decreases |actions|
  {
    if actions != [] {
      var n := |actions| - 1;
      LastStep(p, s0, actions);
      UnresolvedSince(p, s0, actions[..n], id);
      StepMissesIff(p, Until(p, s0, actions, n), actions[n], id);
      SomeStepSplits(p, s0, actions, (s: State, a: Action) => StillMissing(s, id, a));
    }
  }

  lemma PrincipalsOnlyGrow(p: Primitives, s: State, a: Action, key: Key)
    ensures key in s.principals ==> key in Step(p, s, a).principals
  {
  }

  predicate LooksInVain(s: State, id: nat) {
    id in s.calls && s.calls[id].pc.FindAgain? && KeyOf(s.calls[id].input) !in s.principals
  }

  lemma CreateLooksInVain(s: State, id: nat, newId: string, fails: bool)
    requires id in s.calls && s.calls[id].pc.CreatePrincipal?
    requires LooksInVain(CreateStep(s, id, s.calls[id], newId, fails), id)
    ensures MintsUsedId(s, id, Advance(id, newId, fails))
  {
  }

  lemma InsertLooksNoMore(p: Primitives, s: State, id: nat, newId: string, fails: bool)
    requires id in s.calls && s.calls[id].pc.InsertAt?
    ensures !LooksInVain(InsertStep(p, s, id, s.calls[id], newId, fails), id)
  {
  }

  lemma OwnStepLooksInVain(p: Primitives, s: State, a: Action, id: nat)
    requires Own(a, id) && id in s.calls && LooksInVain(Step(p, s, a), id)
    ensures MintsUsedId(s, id, a)
  {
    match s.calls[id].pc
    case CreatePrincipal => CreateLooksInVain(s, id, a.newId, a.fails);
    case InsertAt(_, _) => InsertLooksNoMore(p, s, id, a.newId, a.fails);
    case _ =>
  }

  lemma StepLooksInVain(p: Primitives, s: State, a: Action, id: nat)
    requires LooksInVain(Step(p, s, a), id)
    ensures LooksInVain(s, id) || MintsUsedId(s, id, a)
  {
    PrincipalsOnlyGrow(p, s, a, KeyOf(Step(p, s, a).calls[id].input));
    if id !in s.calls {
      NewCallHasJustBegun(p, s, a, id);
    } else if Own(a, id) {
      OwnStepLooksInVain(p, s, a, id);
    } else {
      OthersUseNone(p, s, id, a);
    }
  }

  lemma {:induction false} VainSince(p: Primitives, s0: State, actions: seq<Action>, id: nat)
    requires LooksInVain(Run(p, s0, actions), id)
    ensures LooksInVain(s0, id) || MintedUsedId(p, s0, actions, id)
    decreases |actions|
  {
    if actions != [] {
      var n := |actions| - 1;
      LastStep(p, s0, actions);
      StepLooksInVain(p, Until(p, s0, actions, n), actions[n], id);
      SomeStepSplits(p, s0, actions, (s: State, a: Action) => MintsUsedId(s, id, a));
      if LooksInVain(Until(p, s0, actions, n), id) {
        VainSince(p, s0, actions[..n], id);
      }
    }
  }

  /** A call cannot resolve its principal exactly when it is missing on the second look, which needs a minted id already in use. */
  lemma UnresolvedIff(p: Primitives, s0: State, actions: seq<Action>, id: nat)
    requires Initial(p, s0)
    ensures IsUnresolved(Run(p, s0, actions), id) <==> MissedTwice(p, s0, actions, id)
    ensures MissedTwice(p, s0, actions, id) ==> MintedUsedId(p, s0, actions, id)
  {
    UnresolvedSince(p, s0, actions, id);
    if m: nat :| m < |actions| && StillMissing(Until(p, s0, actions, m), id, actions[m]) {
      VainSince(p, s0, actions[..m], id);
      if k: nat :| k < m && MintsUsedId(Until(p, s0, actions[..m], k), id, actions[..m][k]) {
        assert actions[..m][..k] == actions[..k];
        assert MintsUsedId(Until(p, s0, actions, k), id, actions[k]);
      }
    }
  }

  // ---- Everyone is recorded -------------------------------------------------

  /** With at most twelve racing for a principal, a finished call is recorded unless a failure of its own kept it from it. */
  lemma RecordedIff(p: Primitives, s0: State, actions: seq<Action>, s: State, key: Key, c: nat)
    requires Initial(p, s0) && s == Run(p, s0, actions)
    requires |Racing(s, key)| <= 12 && c in Racing(s, key) && Finished(s.calls[c].pc)
    ensures HasItsRow(p, s0.rows, s, key, c) <==> !Stumbled(p, s0, actions, c) && !MissedTwice(p, s0, actions, c)
  {
    FailedIff(p, s0, actions, c);
    UnresolvedIff(p, s0, actions, c);
    if !HasFailed(s, c) && !IsUnresolved(s, c) {
      TwelveRacersAreRecorded(p, s0, actions, s, key, c);
    }
  }

  /** None of the call's own inserts fails, and every id it mints is new. */
  ghost predicate GoesWell(p: Primitives, s0: State, actions: seq<Action>, id: nat) {
    forall k: nat :: k < |actions| && Own(actions[k], id) ==> StepGoesWell(Until(p, s0, actions, k), actions[k])
  }

  predicate StepGoesWell(s: State, a: Action)
    requires a.Advance?
  {
    && !a.fails
    && (forall r :: r in s.rows ==> r.id != a.newId)
    && (forall k :: k in s.principals ==> s.principals[k] != a.newId)
  }

  /**
   * At most twelve calls race for a principal, one of them takes twenty-seven steps after it began, nothing
   * fails and its ids are new: then its decision is recorded, in a row of its own, whatever the others do.
   */
  lemma EveryRacerIsRecorded(p: Primitives, s0: State, before: seq<Action>, after: seq<Action>, s: State, key: Key, c: nat)
    requires Initial(p, s0) && s == Run(p, s0, before + after)
    requires c in Run(p, s0, before).calls && OwnSteps(after, c) >= 27
    requires |Racing(s, key)| <= 12 && c in Racing(s, key) && GoesWell(p, s0, before + after, c)
    ensures HasItsRow(p, s0.rows, s, key, c)
    ensures forall d :: d in s.calls && s.calls[d].pc == s.calls[c].pc ==> d == c
  {
    EveryCallFinishes(p, s0, before, after, c);
    UnresolvedIff(p, s0, before + after, c);
    RecordedIff(p, s0, before + after, s, key, c);
    TwelveRacersAreRecorded(p, s0, before + after, s, key, c);
  }
}
