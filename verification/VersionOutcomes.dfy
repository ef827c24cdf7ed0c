/** How an approval may end. */
module VersionOutcomes {
  // An approval is turned away for an unknown site, or because another approval of its site committed after
  // it read; for nothing else. Any other that takes its three steps commits.

  import opened PolicyVersions

  type Registry = map<string, string>

  function Until(sites: Registry, actions: seq<Action>, k: nat): State
    requires k <= |actions|
  {
    Run(sites, NOTHING_YET, actions[..k])
  }

  /** When the approval read the highest version: the one step it takes from the beginning. */
  function ReadAt(sites: Registry, actions: seq<Action>, id: nat): (k: nat)
    ensures k <= |actions|
  {
    if actions == [] then 0
    else
      var n := |actions| - 1;
      if Reads(Until(sites, actions, n), actions[n], id) then n else ReadAt(sites, actions[..n], id)
  }

  predicate Reads(s: State, a: Action, id: nat) {
    a == Advance(id) && id in s.approvals && s.approvals[id].pc.Begun?
  }

  predicate Inserts(s: State, a: Action, id: nat) {
    a == Advance(id) && id in s.approvals && s.approvals[id].pc.HasSuperseded?
  }

  /** Its site has a higher version than the approval read. */
  predicate Overtaken(sites: Registry, actions: seq<Action>, id: nat, now: seq<Version>, site: string) {
    ReadAt(sites, actions, id) < |actions| && Highest(now, site) > Highest(Until(sites, actions, ReadAt(sites, actions, id)).rows, site)
  }

  lemma LastStep(sites: Registry, actions: seq<Action>)
    requires actions != []
    ensures var n := |actions| - 1;
            Run(sites, NOTHING_YET, actions) == Step(sites, Until(sites, actions, n), actions[n])
  {
  }

  lemma EarlierUntil(sites: Registry, actions: seq<Action>, n: nat, k: nat)
    requires k <= n <= |actions|
    ensures Until(sites, actions[..n], k) == Until(sites, actions, k)
  {
    assert actions[..n][..k] == actions[..k];
  }

  ghost predicate ReadEarlier(sites: Registry, actions: seq<Action>, id: nat, highest: nat, site: string) {
    var k := ReadAt(sites, actions, id);
    k < |actions| && Reads(Until(sites, actions, k), actions[k], id) && highest == Highest(Until(sites, actions, k).rows, site)
  }

  /** What an approval holds is what it read. */
  lemma {:induction false} HoldsWhatItRead(sites: Registry, actions: seq<Action>, id: nat)
    requires id in Run(sites, NOTHING_YET, actions).approvals
    ensures var a := Run(sites, NOTHING_YET, actions).approvals[id];
            && (a.pc.HasHighest? ==> ReadEarlier(sites, actions, id, a.pc.highest, a.siteId))
            && (a.pc.HasSuperseded? ==> ReadEarlier(sites, actions, id, a.pc.highest, a.siteId))
    decreases |actions|
  {
    if actions != [] {
      var n := |actions| - 1;
      var s := Until(sites, actions, n);
      LastStep(sites, actions);
      if id in s.approvals && !Reads(s, actions[n], id) {
        HoldsWhatItRead(sites, actions[..n], id);
        EarlierUntil(sites, actions, n, ReadAt(sites, actions[..n], id));
      }
    }
  }

  // ---- How it ends ----------------------------------------------------------

  /** When the approval came to insert, if it did. */
  function InsertAt(sites: Registry, actions: seq<Action>, id: nat): (k: int)
    ensures -1 <= k < |actions|
  {
    if actions == [] then -1
    else
      var n := |actions| - 1;
      if Inserts(Until(sites, actions, n), actions[n], id) then n else InsertAt(sites, actions[..n], id)
  }

  /** At that step its site had a higher version than it had read. */
  predicate OvertakenAt(sites: Registry, actions: seq<Action>, id: nat, k: nat)
    requires k < |actions|
  {
    var s := Until(sites, actions, k);
    id in s.approvals && Overtaken(sites, actions[..k], id, s.rows, s.approvals[id].siteId)
  }

  /** Another approval of the site committed between this one's read and its insert. */
  predicate LostRace(sites: Registry, actions: seq<Action>, id: nat) {
    var k := InsertAt(sites, actions, id);
    k >= 0 && OvertakenAt(sites, actions, id, k)
  }

  predicate WonRace(sites: Registry, actions: seq<Action>, id: nat) {
    var k := InsertAt(sites, actions, id);
    k >= 0 && !OvertakenAt(sites, actions, id, k)
  }

  lemma OvertakenEarlier(sites: Registry, actions: seq<Action>, id: nat, n: nat, k: nat)
    requires k < n <= |actions|
    ensures OvertakenAt(sites, actions[..n], id, k) == OvertakenAt(sites, actions, id, k)
  {
    EarlierUntil(sites, actions, n, k);
    assert actions[..n][..k] == actions[..k];
  }

  /** The insert commits exactly when nobody of its site did since it read. */
  lemma InsertCommitsIff(sites: Registry, actions: seq<Action>, id: nat, k: nat)
    requires k < |actions| && Inserts(Until(sites, actions, k), actions[k], id)
    ensures var s := Until(sites, actions, k);
            Next(s.rows, s.approvals[id]).1 == if OvertakenAt(sites, actions, id, k) then VersionConflict else Committed(|s.rows|)
  {
    var s := Until(sites, actions, k);
    RunKeepsInv(sites, NOTHING_YET, actions[..k]);
    HoldsWhatItRead(sites, actions[..k], id);
    CommitsIff(s.rows, s.approvals[id]);
    assert ApprovalOk(s.rows, s.approvals[id]);
  }

  predicate Conflicts(s: State, id: nat) { id in s.approvals && s.approvals[id].pc.VersionConflict? }

  predicate Commits(s: State, id: nat) { id in s.approvals && s.approvals[id].pc.Committed? }

  lemma StepEnds(sites: Registry, s: State, a: Action, id: nat)
    ensures Conflicts(Step(sites, s, a), id) <==>
            Conflicts(s, id) || (Inserts(s, a, id) && Next(s.rows, s.approvals[id]).1.VersionConflict?)
    ensures Commits(Step(sites, s, a), id) <==>
            Commits(s, id) || (Inserts(s, a, id) && Next(s.rows, s.approvals[id]).1.Committed?)
  {
  }

  /** An approval that has yet to insert has not ended. */
  lemma InsertsOnce(sites: Registry, actions: seq<Action>, id: nat)
    requires var s := Run(sites, NOTHING_YET, actions); id in s.approvals && s.approvals[id].pc.HasSuperseded?
    ensures !Conflicts(Run(sites, NOTHING_YET, actions), id) && !Commits(Run(sites, NOTHING_YET, actions), id)
  {
  }

  /** An approval conflicts exactly when another of its site committed between its read and its insert, and otherwise commits. */
  lemma {:induction false} EndsAsTheRaceDid(sites: Registry, actions: seq<Action>, id: nat)
    ensures Conflicts(Run(sites, NOTHING_YET, actions), id) <==> LostRace(sites, actions, id)
    ensures Commits(Run(sites, NOTHING_YET, actions), id) <==> WonRace(sites, actions, id)
    decreases |actions|
  {
    if actions != [] {
      var n := |actions| - 1;
      EndsAsTheRaceDid(sites, actions[..n], id);
      StepEnds(sites, Until(sites, actions, n), actions[n], id);
      if Inserts(Until(sites, actions, n), actions[n], id) {
        InsertsOnce(sites, actions[..n], id);
        InsertCommitsIff(sites, actions, id, n);
      } else if InsertAt(sites, actions, id) >= 0 {
        OvertakenEarlier(sites, actions, id, n, InsertAt(sites, actions, id));
      }
    }
  }

  /** It is turned away for its site exactly when that is not its organisation's. */
  lemma {:induction false} TurnedAwayIff(sites: Registry, actions: seq<Action>, id: nat)
    requires id in Run(sites, NOTHING_YET, actions).approvals
    ensures var a := Run(sites, NOTHING_YET, actions).approvals[id];
            a.pc.SiteNotFound? <==> a.siteId !in sites || sites[a.siteId] != a.organisationId
    decreases |actions|
  {
    if actions != [] {
      var n := |actions| - 1;
      if id in Until(sites, actions, n).approvals {
        TurnedAwayIff(sites, actions[..n], id);
      }
    }
  }

  // ---- Three steps are enough -----------------------------------------------

  function StepsLeft(pc: Pc): nat {
    match pc
    case Begun => 3 case HasHighest(_) => 2 case HasSuperseded(_, _) => 1 case _ => 0
  }

  function OwnSteps(actions: seq<Action>, id: nat): nat {
    if actions == [] then 0
    else OwnSteps(actions[..|actions| - 1], id) + if actions[|actions| - 1] == Advance(id) then 1 else 0
  }

  lemma StepUsesOne(sites: Registry, s: State, a: Action, id: nat)
    requires id in s.approvals
    ensures id in Step(sites, s, a).approvals
    ensures var left, now := StepsLeft(s.approvals[id].pc), StepsLeft(Step(sites, s, a).approvals[id].pc);
            now == if a == Advance(id) && left > 0 then left - 1 else left
  {
  }

  lemma {:induction false} StepsRunDown(sites: Registry, s: State, actions: seq<Action>, id: nat)
    requires id in s.approvals
    ensures id in Run(sites, s, actions).approvals
    ensures StepsLeft(Run(sites, s, actions).approvals[id].pc) + OwnSteps(actions, id) >= StepsLeft(s.approvals[id].pc)
    ensures OwnSteps(actions, id) >= 3 ==> StepsLeft(Run(sites, s, actions).approvals[id].pc) == 0
    ensures StepsLeft(Run(sites, s, actions).approvals[id].pc) <= (if OwnSteps(actions, id) >= 3 then 0 else 3 - OwnSteps(actions, id))
    decreases |actions|
  {
    if actions != [] {
      var n := |actions| - 1;
      StepsRunDown(sites, s, actions[..n], id);
      StepUsesOne(sites, Run(sites, s, actions[..n]), actions[n], id);
    }
  }

  /**
   * Whatever the others do, an approval for a site of its organisation has committed after three steps of its
   * own, unless another of its site committed between its read and its insert.
   */
  lemma ApprovesUnlessOvertaken(sites: Registry, before: seq<Action>, after: seq<Action>, id: nat)
    requires id in Run(sites, NOTHING_YET, before).approvals && OwnSteps(after, id) >= 3
    requires var a := Run(sites, NOTHING_YET, before).approvals[id]; a.siteId in sites && sites[a.siteId] == a.organisationId
    ensures Commits(Run(sites, NOTHING_YET, before + after), id) <==> !LostRace(sites, before + after, id)
  {
    var s, t := Run(sites, NOTHING_YET, before), Run(sites, NOTHING_YET, before + after);
    RunAppend(sites, NOTHING_YET, before, after);
    StepsRunDown(sites, s, after, id);
    SameApproval(sites, s, after, id);
    TurnedAwayIff(sites, before + after, id);
    EndsAsTheRaceDid(sites, before + after, id);
  }

  lemma {:induction false} SameApproval(sites: Registry, s: State, actions: seq<Action>, id: nat)
    requires id in s.approvals
    ensures id in Run(sites, s, actions).approvals
    ensures Run(sites, s, actions).approvals[id].siteId == s.approvals[id].siteId
    ensures Run(sites, s, actions).approvals[id].organisationId == s.approvals[id].organisationId
    decreases |actions|
  {
    if actions != [] {
      SameApproval(sites, s, actions[..|actions| - 1], id);
    }
  }
}
