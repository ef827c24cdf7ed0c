/**
 * An experiment's lifecycle. Each management request reads the row, checks against what it read,
 * and writes without a further condition; requests may overlap.
 */
module ExperimentLifecycle {
  import opened Text
  import opened Experiment

  datatype Status = DRAFT | SCHEDULED | RUNNING | PAUSED | COMPLETED | ARCHIVED

  function Transitions(from: Status): set<Status> {
    match from
    case DRAFT => {SCHEDULED, RUNNING, ARCHIVED}
    case SCHEDULED => {RUNNING, DRAFT, ARCHIVED}
    case RUNNING => {PAUSED, COMPLETED}
    case PAUSED => {RUNNING, COMPLETED, ARCHIVED}
    case COMPLETED => {ARCHIVED}
    case ARCHIVED => {}
  }

  predicate IsEditable(status: Status) {
    status == DRAFT || status == SCHEDULED
  }

  datatype Row = Row(status: Status, variants: seq<Variant>)

  // ---- Requests -------------------------------------------------------------

  /** `otherProblems` stands for the checks on what else is true of the site: its policy, its other experiments. */
  datatype Request =
    | Edit(variants: Option<seq<Variant>>, otherProblems: bool)
    | Move(to: Status, otherProblems: bool)

  datatype Pc = Arrived | MayWrite | Done | Rejected

  datatype Call = Call(request: Request, pc: Pc)

  /** What the check against the row read says. */
  ghost predicate Passes(row: Row, r: Request) {
    match r
    case Edit(variants, other) => IsEditable(row.status) && !other && (variants.Some? ==> WellFormed(variants.value))
    case Move(to, other) => to in Transitions(row.status) && (to == RUNNING ==> WellFormed(row.variants) && !other)
  }

  /** The unconditional write. */
  function Write(row: Row, r: Request): Row {
    match r
    case Edit(variants, _) => if variants.Some? then row.(variants := variants.value) else row
    case Move(to, _) => row.(status := to)
  }

  datatype State = State(row: Row, calls: map<nat, Call>)
  datatype Action = Begin(id: nat, request: Request) | Check(id: nat) | Commit(id: nat)

  ghost function Step(s: State, a: Action): State {
    match a
    case Begin(id, request) => if id in s.calls then s else s.(calls := s.calls[id := Call(request, Arrived)])
    case Check(id) =>
      if id in s.calls && s.calls[id].pc.Arrived?
      then s.(calls := s.calls[id := s.calls[id].(pc := if Passes(s.row, s.calls[id].request) then MayWrite else Rejected)])
      else s
    case Commit(id) =>
      if id in s.calls && s.calls[id].pc.MayWrite?
      then State(Write(s.row, s.calls[id].request), s.calls[id := s.calls[id].(pc := Done)])
      else s
  }

  ghost function Run(s: State, actions: seq<Action>): State {
    if actions == [] then s else Step(Run(s, actions[..|actions| - 1]), actions[|actions| - 1])
  }

  // ---- One request at a time ------------------------------------------------

  /** The checks and the write of one request, with nobody in between. */
  ghost function Handle(row: Row, r: Request): Row {
    if Passes(row, r) then Write(row, r) else row
  }

  ghost function History(row: Row, requests: seq<Request>): Row {
    if requests == [] then row else Handle(History(row, requests[..|requests| - 1]), requests[|requests| - 1])
  }

  /** The states an experiment that has run can be in: from none of them back to an editable one. */
  predicate HasRun(status: Status) {
    status in {RUNNING, PAUSED, COMPLETED, ARCHIVED}
  }

  lemma NoWayBack(from: Status, to: Status)
    requires HasRun(from) && to in Transitions(from)
    ensures HasRun(to) && !IsEditable(to)
  {
  }

  lemma {:induction false} RanStaysRan(row: Row, requests: seq<Request>)
    requires HasRun(row.status)
    ensures HasRun(History(row, requests).status) && History(row, requests).variants == row.variants
    decreases |requests|
  {
    if requests != [] {
      var before := History(row, requests[..|requests| - 1]);
      RanStaysRan(row, requests[..|requests| - 1]);
      var r := requests[|requests| - 1];
      if r.Move? && Passes(before, r) {
        NoWayBack(before.status, r.to);
      }
    }
  }

  lemma {:induction false} HistoryAppend(row: Row, first: seq<Request>, rest: seq<Request>)
    ensures History(row, first + rest) == History(History(row, first), rest)
    decreases |rest|
  {
    if rest == [] {
      assert first + rest == first;
    } else {
      assert (first + rest)[..|first + rest| - 1] == first + rest[..|rest| - 1];
      HistoryAppend(row, first, rest[..|rest| - 1]);
    }
  }

  /** Every status a row passes through keeps its variants well formed, and RUNNING needs no more. */
  lemma {:induction false} VariantsStayWellFormed(row: Row, requests: seq<Request>)
    requires WellFormed(row.variants)
    ensures WellFormed(History(row, requests).variants)
    decreases |requests|
  {
    if requests != [] {
      VariantsStayWellFormed(row, requests[..|requests| - 1]);
    }
  }

  /**
   * Requests handled one at a time: from the first moment an experiment is RUNNING its variants are
   * fixed, so every browser keeps the arm it was shown, in whatever order the arms are stored.
   */
  lemma {:induction false} RunningFixesEveryArm(row: Row, first: seq<Request>, rest: seq<Request>, stored: seq<Arm>, bucket: nat)
    requires WellFormed(row.variants) && History(row, first).status == RUNNING && bucket < 100
    requires multiset(stored) == multiset(ArmsOf(History(row, first + rest).variants))
    ensures History(row, first + rest).variants == History(row, first).variants
    ensures ArmOf(stored, bucket) == ArmOf(ArmsOf(History(row, first).variants), bucket)
    ensures ArmOf(stored, bucket).Some?
  {
    var running := History(row, first);
    HistoryAppend(row, first, rest);
    RanStaysRan(running, rest);
    VariantsStayWellFormed(row, first);
    var arms := ArmsOf(running.variants);
    OrderedArms(running.variants, arms);
    StoredOrderIsIrrelevant(arms, stored, bucket);
    EachArmOwnsItsAllocation(running.variants, running.variants[0]);
  }

  // ---- Overlapping requests -------------------------------------------------

  /** A write already let through that would change the variants, or make the row editable again. */
  predicate Undermines(row: Row, c: Call) {
    && c.pc.MayWrite?
    && match c.request
       case Edit(variants, _) => variants.Some? && variants.value != row.variants
       case Move(to, _) => IsEditable(to)
  }

  predicate Settled(s: State) {
    HasRun(s.row.status) && forall id :: id in s.calls ==> !Undermines(s.row, s.calls[id])
  }

  lemma StepStaysSettled(s: State, a: Action)
    requires Settled(s)
    ensures Settled(Step(s, a)) && Step(s, a).row.variants == s.row.variants
  {
    var t := Step(s, a);
    match a
    case Begin(_, _) =>
    case Check(id) =>
      if id in s.calls && s.calls[id].pc.Arrived? && Passes(s.row, s.calls[id].request) && s.calls[id].request.Move? {
        NoWayBack(s.row.status, s.calls[id].request.to);
      }
    case Commit(id) =>
      if id in s.calls && s.calls[id].pc.MayWrite? {
        assert !Undermines(s.row, s.calls[id]);
        assert t.row.variants == s.row.variants;
        if s.calls[id].request.Move? {
          assert !IsEditable(s.calls[id].request.to);
        }
        forall c | c in t.calls ensures !Undermines(t.row, t.calls[c]) {
          if c != id { assert !Undermines(s.row, s.calls[c]); }
        }
      }
  }

  lemma {:induction false} SettledForEver(s: State, actions: seq<Action>)
    requires Settled(s)
    ensures Settled(Run(s, actions)) && Run(s, actions).row.variants == s.row.variants
    decreases |actions|
  {
    if actions != [] {
      SettledForEver(s, actions[..|actions| - 1]);
      StepStaysSettled(Run(s, actions[..|actions| - 1]), actions[|actions| - 1]);
    }
  }

  lemma RunOne(s: State, a: Action)
    ensures Run(s, [a]) == Step(s, a)
  {
    assert [a][..0] == [];
  }

  lemma RunFour(s: State, a: Action, b: Action, c: Action, d: Action)
    ensures Run(s, [a, b, c, d]) == Step(Step(Step(Step(s, a), b), c), d)
  {
    RunOne(s, a);
    assert [a, b][..1] == [a] && [a, b, c][..2] == [a, b] && [a, b, c, d][..3] == [a, b, c];
    assert Run(s, [a, b]) == Step(Step(s, a), b);
    assert Run(s, [a, b, c]) == Step(Step(Step(s, a), b), c);
  }

  ghost predicate CanChange(s: State, actions: seq<Action>) {
    Run(s, actions).row.variants != s.row.variants
  }

  /** A pending change of variants, written after the start. */
  lemma PendingEditChanges(s: State, id: nat) returns (actions: seq<Action>)
    requires id in s.calls && Undermines(s.row, s.calls[id]) && s.calls[id].request.Edit?
    ensures CanChange(s, actions)
  {
    actions := [Commit(id)];
    RunOne(s, Commit(id));
  }

  /** A pending step back, written after the start, and then an edit that passes every check. */
  lemma PendingStepBackChanges(s: State, id: nat, free: nat, variants: seq<Variant>) returns (actions: seq<Action>)
    requires id in s.calls && Undermines(s.row, s.calls[id]) && s.calls[id].request.Move?
    requires free !in s.calls && WellFormed(variants) && variants != s.row.variants
    ensures CanChange(s, actions)
  {
    var edit := Edit(Some(variants), false);
    actions := [Commit(id), Begin(free, edit), Check(free), Commit(free)];
    RunFour(s, Commit(id), Begin(free, edit), Check(free), Commit(free));
    var s1 := Step(s, Commit(id));
    var s2 := Step(s1, Begin(free, edit));
    assert s2.calls[free] == Call(edit, Arrived) && IsEditable(s2.row.status);
    var s3 := Step(s2, Check(free));
    assert s3.calls[free] == Call(edit, MayWrite) && s3.row == s2.row;
  }

  /** An id no call has taken. */
  lemma FreshId(calls: map<nat, Call>) returns (id: nat)
    ensures id !in calls
  {
    id := Above(calls.Keys);
  }

  lemma {:induction false} Above(ids: set<nat>) returns (bound: nat)
    ensures forall i :: i in ids ==> i < bound
  {
    if ids == {} {
      bound := 0;
    } else {
      var x :| x in ids;
      var b := Above(ids - {x});
      bound := if b > x then b else x + 1;
      forall i | i in ids ensures i < bound {
        if i != x { assert i in ids - {x}; }
      }
    }
  }

  /**
   * Once it has run, an experiment keeps its variants under every continuation exactly when no
   * write let through before the start is still to come that changes them or steps back.
   */
  lemma VariantsAreFixedIff(s: State, other: seq<Variant>)
    requires HasRun(s.row.status) && WellFormed(other) && other != s.row.variants
    ensures (forall actions :: !CanChange(s, actions)) <==> (forall id :: id in s.calls ==> !Undermines(s.row, s.calls[id]))
  {
    if Settled(s) {
      forall actions ensures !CanChange(s, actions) {
        SettledForEver(s, actions);
      }
    } else {
      var id :| id in s.calls && Undermines(s.row, s.calls[id]);
      var actions;
      if s.calls[id].request.Edit? {
        actions := PendingEditChanges(s, id);
      } else {
        var free := FreshId(s.calls);
        actions := PendingStepBackChanges(s, id, free, other);
      }
      assert CanChange(s, actions);
    }
  }

  // ---- It does happen -------------------------------------------------------

  lemma RunPlus(s: State, actions: seq<Action>, a: Action)
    ensures Run(s, actions + [a]) == Step(Run(s, actions), a)
  {
    assert (actions + [a])[..|actions|] == actions;
  }

  /** Two requests that each pass their check on the row as it stands, the second committed before the first. */
  function Overtaken(first: Request, second: Request): seq<Action> {
    [Begin(0, first)] + [Check(0)] + [Begin(1, second)] + [Check(1)] + [Commit(1)]
  }

  lemma OvertakenLeaves(row: Row, first: Request, second: Request)
    requires Passes(row, first) && Passes(row, second)
    ensures Run(State(row, map[]), Overtaken(first, second))
            == State(Write(row, second), map[0 := Call(first, MayWrite), 1 := Call(second, Done)])
  {
    var s := State(row, map[]);
    var none: seq<Action> := [];
    assert Run(s, none) == s && none + [Begin(0, first)] == [Begin(0, first)];
    RunPlus(s, none, Begin(0, first));
    var a := [Begin(0, first)];
    RunPlus(s, a, Check(0));
    var b := a + [Check(0)];
    assert Run(s, b) == State(row, map[0 := Call(first, MayWrite)]);
    RunPlus(s, b, Begin(1, second));
    var c := b + [Begin(1, second)];
    RunPlus(s, c, Check(1));
    var d := c + [Check(1)];
    assert Run(s, d) == State(row, map[0 := Call(first, MayWrite), 1 := Call(second, MayWrite)]);
    RunPlus(s, d, Commit(1));
  }

  /** An edit let through on the draft and committed after the start: a running experiment whose variants change. */
  lemma AnEditOvertakenByTheStart(a: seq<Variant>, b: seq<Variant>)
    requires WellFormed(a) && WellFormed(b) && a != b
    ensures var s := Run(State(Row(DRAFT, a), map[]), Overtaken(Edit(Some(b), false), Move(RUNNING, false)));
            && s.row == Row(RUNNING, a) && 0 in s.calls && Undermines(s.row, s.calls[0]) && CanChange(s, [Commit(0)])
            && Run(s, [Commit(0)]).row == Row(RUNNING, b)
  {
    OvertakenLeaves(Row(DRAFT, a), Edit(Some(b), false), Move(RUNNING, false));
    RunOne(Run(State(Row(DRAFT, a), map[]), Overtaken(Edit(Some(b), false), Move(RUNNING, false))), Commit(0));
  }

  /** A step back let through before the start and committed after it: an experiment that ran is a draft again. */
  lemma AStepBackOvertakenByTheStart(a: seq<Variant>)
    requires WellFormed(a)
    ensures var s := Run(State(Row(SCHEDULED, a), map[]), Overtaken(Move(DRAFT, false), Move(RUNNING, false)));
            && s.row == Row(RUNNING, a) && 0 in s.calls && Undermines(s.row, s.calls[0]) && Run(s, [Commit(0)]).row == Row(DRAFT, a)
  {
    OvertakenLeaves(Row(SCHEDULED, a), Move(DRAFT, false), Move(RUNNING, false));
    RunOne(Run(State(Row(SCHEDULED, a), map[]), Overtaken(Move(DRAFT, false), Move(RUNNING, false))), Commit(0));
  }

  // ---- When a request goes through ------------------------------------------

  /** From where each status is entered: nothing leads out of ARCHIVED, and COMPLETED leads only there. */
  predicate EnteredFrom(to: Status, from: Status) {
    match to
    case DRAFT => from == SCHEDULED
    case SCHEDULED => from == DRAFT
    case RUNNING => from in {DRAFT, SCHEDULED, PAUSED}
    case PAUSED => from == RUNNING
    case COMPLETED => from in {RUNNING, PAUSED}
    case ARCHIVED => from !in {RUNNING, ARCHIVED}
  }

  lemma TransitionsEnter(from: Status, to: Status)
    ensures to in Transitions(from) <==> EnteredFrom(to, from)
  {
  }

  /** What a request handled alone leaves: the row as asked for where it may be, and otherwise the row as it was. */
  lemma HandledAlone(row: Row, r: Request)
    ensures r.Edit? && r.variants.Some? ==>
              Handle(row, r) == if row.status in {DRAFT, SCHEDULED} && !r.otherProblems && WellFormed(r.variants.value)
                                then Row(row.status, r.variants.value) else row
    ensures r.Edit? && r.variants.None? ==> Handle(row, r) == row
    ensures r.Move? ==>
              Handle(row, r) == if EnteredFrom(r.to, row.status) && (r.to == RUNNING ==> WellFormed(row.variants) && !r.otherProblems)
                                then Row(r.to, row.variants) else row
  {
    if r.Move? { TransitionsEnter(row.status, r.to); }
  }

  /** When a request was checked, if it has been. */
  ghost function CheckedAt(s0: State, actions: seq<Action>, id: nat): (k: int)
    ensures -1 <= k < |actions|
  {
    if actions == [] then -1
    else
      var n := |actions| - 1;
      var s := Run(s0, actions[..n]);
      if actions[n] == Check(id) && id in s.calls && s.calls[id].pc.Arrived? then n else CheckedAt(s0, actions[..n], id)
  }

  /** The row as the request found it when it was checked lets it through. */
  ghost predicate PassedAt(s0: State, actions: seq<Action>, id: nat, k: nat)
    requires k < |actions|
  {
    var s := Run(s0, actions[..k]);
    id in s.calls && Passes(s.row, s.calls[id].request)
  }

  /** A request is let through exactly when the row it was checked on allows it, and turned away exactly when not. */
  lemma {:induction false} LetThroughIff(s0: State, actions: seq<Action>, id: nat)
    requires s0.calls == map[] && id in Run(s0, actions).calls
    ensures var pc, k := Run(s0, actions).calls[id].pc, CheckedAt(s0, actions, id);
            && (pc.MayWrite? || pc.Done? <==> k >= 0 && PassedAt(s0, actions, id, k))
            && (pc.Rejected? <==> k >= 0 && !PassedAt(s0, actions, id, k))
    decreases |actions|
  {
    if actions != [] {
      var n := |actions| - 1;
      var s := Run(s0, actions[..n]);
      if id in s.calls {
        LetThroughIff(s0, actions[..n], id);
      } else {
        NotCheckedYet(s0, actions[..n], id);
      }
      var k := CheckedAt(s0, actions[..n], id);
      if k >= 0 {
        assert actions[..n][..k] == actions[..k];
      }
    }
  }

  lemma {:induction false} NotCheckedYet(s0: State, actions: seq<Action>, id: nat)
    requires id !in Run(s0, actions).calls
    ensures CheckedAt(s0, actions, id) == -1
    decreases |actions|
  {
    if actions != [] {
      NotCheckedYet(s0, actions[..|actions| - 1], id);
    }
  }
}
