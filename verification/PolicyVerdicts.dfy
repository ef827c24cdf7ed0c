/** What the evaluator's verdicts mean, and how they move. */
module PolicyVerdicts {
  // How obligations, permissions and questions make the outcome, and what asserting more conditions,
  // widening the context or rearranging the rules can and cannot do to it.

  import opened Text
  import opened Sequences
  import opened PolicyEngine

  // ---- What a single rule does ----------------------------------------------

  predicate Obliges(rule: Rule, child: Option<bool>, asserted: set<string>) {
    Contribution(rule, child, asserted).obligations != []
  }

  predicate Permits(rule: Rule, child: Option<bool>, asserted: set<string>) {
    Contribution(rule, child, asserted).permissions != []
  }

  /** The rule asks something outright, or obliges under conditions nobody evaluated. */
  predicate Asks(rule: Rule, child: Option<bool>, asserted: set<string>) {
    var work := Contribution(rule, child, asserted);
    work.questions != [] || HalfAnswered(work.obligations) != []
  }

  predicate OwnAndModerate(obligations: seq<Obligation>, rule: Rule) {
    |obligations| <= 2 && forall o :: o in obligations ==> 1 < Severity(o.verdict) < 6 && o.citation == rule
  }

  lemma PartVerdicts(rule: Rule, child: Option<bool>, asserted: set<string>)
    ensures rule.children.Some? ==> OwnAndModerate(ChildrenPart(rule, child, asserted).obligations, rule)
    ensures rule.consent.Some? && rule.topic.Some? ==> OwnAndModerate(ConsentPart(rule, asserted).obligations, rule)
    ensures rule.topic.Some? ==> OwnAndModerate(OtherPart(rule, asserted).obligations, rule)
  {
  }

  /** Under the shipped topic table no rule obliges BLOCK, REVIEW or ALLOW, and each obligation cites its rule. */
  lemma ContributionVerdicts(rule: Rule, child: Option<bool>, asserted: set<string>)
    ensures OwnAndModerate(Contribution(rule, child, asserted).obligations, rule)
  {
    if rule.applies && rule.topic.Some? {
      PartVerdicts(rule, child, asserted);
      var part := if rule.children.Some? && rule.children.value.applies then ChildrenPart(rule, child, asserted)
                  else if rule.consent.Some? && (rule.consent.value.required != No || DispositionOf(rule.topic.value).0 == Gate)
                  then ConsentPart(rule, asserted) else OtherPart(rule, asserted);
      assert Contribution(rule, child, asserted).obligations == [] + part.obligations == part.obligations;
    }
  }

  /** The verdict a rule obliges, at its most severe; ALLOW where it obliges nothing. */
  function Pull(rule: Rule, child: Option<bool>, asserted: set<string>): Verdict {
    Lowered(Contribution(rule, child, asserted).obligations)
  }

  // ---- From rules to the whole selection ------------------------------------

  lemma {:induction false} LoweredAppend(a: seq<Obligation>, b: seq<Obligation>)
    ensures Lowered(a + b) == MoreRestrictive(Lowered(a), Lowered(b))
  {
    if b == [] {
      assert a + b == a;
    } else {
      assert (a + b)[..|a + b| - 1] == a + b[..|b| - 1];
      LoweredAppend(a, b[..|b| - 1]);
    }
  }

  lemma {:induction false} HalfAnsweredAppend(a: seq<Obligation>, b: seq<Obligation>)
    ensures HalfAnswered(a + b) == HalfAnswered(a) + HalfAnswered(b)
  {
    if b == [] {
      assert a + b == a;
    } else {
      assert (a + b)[..|a + b| - 1] == a + b[..|b| - 1];
      HalfAnsweredAppend(a, b[..|b| - 1]);
    }
  }

  lemma {:induction false} LoweredIsLeast(obligations: seq<Obligation>)
    ensures forall o :: o in obligations ==> Severity(Lowered(obligations)) <= Severity(o.verdict)
    ensures obligations != [] ==> Lowered(obligations) == ALLOW || exists o :: o in obligations && o.verdict == Lowered(obligations)
    ensures obligations == [] ==> Lowered(obligations) == ALLOW
  {
    if obligations != [] {
      var rest, last := obligations[..|obligations| - 1], obligations[|obligations| - 1];
      LoweredIsLeast(rest);
      assert obligations == rest + [last];
      if Lowered(obligations) != ALLOW && Lowered(obligations) != last.verdict {
        var o :| o in rest && o.verdict == Lowered(rest);
        assert o in obligations;
      }
    }
  }

  /** The lists of the whole selection are non-empty exactly when some rule adds to them. */
  lemma {:induction false} ContributionsSummary(rules: seq<Rule>, child: Option<bool>, asserted: set<string>)
    ensures var work := Contributions(rules, child, asserted);
            && (work.obligations != [] <==> exists r :: r in rules && Obliges(r, child, asserted))
            && (work.permissions != [] <==> exists r :: r in rules && Permits(r, child, asserted))
            && (work.questions + HalfAnswered(work.obligations) != [] <==> exists r :: r in rules && Asks(r, child, asserted))
    ensures forall r :: r in rules ==> Severity(Lowered(Contributions(rules, child, asserted).obligations)) <= Severity(Pull(r, child, asserted))
    ensures Lowered(Contributions(rules, child, asserted).obligations) == ALLOW
            || exists r :: r in rules && Pull(r, child, asserted) == Lowered(Contributions(rules, child, asserted).obligations)
  {
    if rules != [] {
      var rest, last := rules[..|rules| - 1], rules[|rules| - 1];
      assert rules == rest + [last];
      assert last in rules;
      ContributionsSummary(rest, child, asserted);
      var before, one := Contributions(rest, child, asserted), Contribution(last, child, asserted);
      LoweredAppend(before.obligations, one.obligations);
      HalfAnsweredAppend(before.obligations, one.obligations);
    }
  }

  // ---- What the verdict means -----------------------------------------------

  predicate Reached(context: Context, rules: seq<Rule>, r: Rule) {
    r in rules && Excluded(context, r).None?
  }

  predicate SomePermits(context: Context, rules: seq<Rule>) {
    exists r :: r in rules && Reached(context, rules, r) && Permits(r, context.subjectIsChild, Asserted(context))
  }

  predicate SomeObliges(context: Context, rules: seq<Rule>) {
    exists r :: r in rules && Reached(context, rules, r) && Obliges(r, context.subjectIsChild, Asserted(context))
  }

  predicate SomeAsks(context: Context, rules: seq<Rule>) {
    exists r :: r in rules && Reached(context, rules, r) && Asks(r, context.subjectIsChild, Asserted(context))
  }

  /** Some rule reaching the context says something about the activity itself. */
  predicate HasFinding(context: Context, rules: seq<Rule>) {
    SomePermits(context, rules) || SomeObliges(context, rules) || SomeAsks(context, rules)
  }

  predicate PulledBySome(context: Context, rules: seq<Rule>, v: Verdict) {
    exists r :: r in rules && Reached(context, rules, r) && Obliges(r, context.subjectIsChild, Asserted(context))
                && Pull(r, context.subjectIsChild, Asserted(context)) == v
  }

  predicate NonePullsHarder(context: Context, rules: seq<Rule>, v: Verdict) {
    forall r :: r in rules && Reached(context, rules, r)
                ==> Severity(v) <= Severity(Pull(r, context.subjectIsChild, Asserted(context)))
  }

  /** `v` is the most severe verdict any reached rule obliges. */
  predicate MostSevere(context: Context, rules: seq<Rule>, v: Verdict) {
    PulledBySome(context, rules, v) && NonePullsHarder(context, rules, v)
  }

  predicate Moderate(obligations: seq<Obligation>) {
    forall o :: o in obligations ==> 1 < Severity(o.verdict) < 6
  }

  lemma {:induction false} ModerateLowered(obligations: seq<Obligation>)
    requires Moderate(obligations)
    ensures 1 < Severity(Lowered(obligations)) <= 6
    ensures Lowered(obligations) == ALLOW <==> obligations == []
  {
    if obligations != [] {
      var rest, last := obligations[..|obligations| - 1], obligations[|obligations| - 1];
      assert last in obligations;
      ModerateLowered(rest);
    }
  }

  lemma {:induction false} ContributionsModerate(rules: seq<Rule>, child: Option<bool>, asserted: set<string>)
    ensures Moderate(Contributions(rules, child, asserted).obligations)
  {
    if rules != [] {
      ContributionsModerate(rules[..|rules| - 1], child, asserted);
      ContributionVerdicts(rules[|rules| - 1], child, asserted);
    }
  }

  /** What the rules reaching the context contribute together. */
  function Findings(context: Context, rules: seq<Rule>): Work {
    Contributions(Selected(context, rules), context.subjectIsChild, Asserted(context))
  }

  /** The verdict a contribution comes to. */
  function Concluded(work: Work): Verdict {
    if work.questions + HalfAnswered(work.obligations) != [] then MoreRestrictive(Lowered(work.obligations), REVIEW)
    else if work.obligations == [] && work.permissions == [] then REVIEW
    else Lowered(work.obligations)
  }

  lemma NothingReachedNothingSelected(context: Context, rules: seq<Rule>)
    requires context.jurisdictions == [] || Selected(context, rules) == []
    ensures forall r :: !Reached(context, rules, r)
  {
    forall r ensures !Reached(context, rules, r) {
      SelectedMember(context, rules, r);
    }
  }

  lemma DecideConcludes(context: Context, rules: seq<Rule>)
    ensures Decide(context, rules).outcome == Concluded(Findings(context, rules))
  {
    if context.jurisdictions == [] {
      NothingReachedNothingSelected(context, rules);
      if Selected(context, rules) != [] {
        SelectedMember(context, rules, Selected(context, rules)[0]);
      }
    }
    ContributionsModerate(Selected(context, rules), context.subjectIsChild, Asserted(context));
    ModerateLowered(Findings(context, rules).obligations);
  }

  lemma FindingsSummary(context: Context, rules: seq<Rule>, selected: seq<Rule>)
    requires selected == Selected(context, rules)
    ensures SomePermits(context, rules) <==> Findings(context, rules).permissions != []
    ensures SomeObliges(context, rules) <==> Findings(context, rules).obligations != []
    ensures SomeAsks(context, rules)
            <==> Findings(context, rules).questions + HalfAnswered(Findings(context, rules).obligations) != []
  {
    forall r ensures r in selected <==> Reached(context, rules, r) {
      SelectedMember(context, rules, r);
    }
    ContributionsSummary(selected, context.subjectIsChild, Asserted(context));
  }

  lemma FindingsPull(context: Context, rules: seq<Rule>, v: Verdict)
    requires v == Lowered(Findings(context, rules).obligations) && v != ALLOW
    ensures MostSevere(context, rules, v)
  {
    var selected, child, asserted := Selected(context, rules), context.subjectIsChild, Asserted(context);
    ContributionsSummary(selected, child, asserted);
    var r :| r in selected && Pull(r, child, asserted) == v;
    assert Obliges(r, child, asserted);
    SelectedMember(context, rules, r);
    assert PulledBySome(context, rules, v) by {
      assert Reached(context, rules, r);
    }
    forall q | q in rules && Reached(context, rules, q) ensures Severity(v) <= Severity(Pull(q, child, asserted)) {
      SelectedMember(context, rules, q);
    }
  }

  /** The verdict, read off the rules that reach the context and nothing else. */
  lemma OutcomeIs(context: Context, rules: seq<Rule>)
    ensures var outcome := Decide(context, rules).outcome;
            && (SomeAsks(context, rules) ==> outcome == REVIEW)
            && (!SomeAsks(context, rules) && SomeObliges(context, rules) ==> MostSevere(context, rules, outcome))
            && (!SomeAsks(context, rules) && !SomeObliges(context, rules) ==>
                  outcome == if SomePermits(context, rules) then ALLOW else REVIEW)
  {
    DecideConcludes(context, rules);
    FindingsSummary(context, rules, Selected(context, rules));
    ContributionsModerate(Selected(context, rules), context.subjectIsChild, Asserted(context));
    var v := Lowered(Findings(context, rules).obligations);
    ModerateLowered(Findings(context, rules).obligations);
    if v != ALLOW {
      FindingsPull(context, rules, v);
    }
  }

  /** How an outcome follows from who asks, obliges and permits. */
  predicate Shape(asks: bool, obliges: bool, permits: bool, v: Verdict) {
    && (asks ==> v == REVIEW)
    && (!asks && obliges ==> 1 < Severity(v) < 6)
    && (!asks && !obliges ==> v == if permits then ALLOW else REVIEW)
  }

  lemma OutcomeShape(context: Context, rules: seq<Rule>, v: Verdict)
    requires v == Decide(context, rules).outcome
    ensures Shape(SomeAsks(context, rules), SomeObliges(context, rules), SomePermits(context, rules), v)
  {
    DecideConcludes(context, rules);
    FindingsSummary(context, rules, Selected(context, rules));
    ContributionsModerate(Selected(context, rules), context.subjectIsChild, Asserted(context));
    ModerateLowered(Findings(context, rules).obligations);
  }

  /** ALLOW needs a rule that positively permits, and none that obliges or asks. */
  lemma AllowExactlyWhen(context: Context, rules: seq<Rule>)
    ensures Decide(context, rules).outcome == ALLOW
            <==> SomePermits(context, rules) && !SomeObliges(context, rules) && !SomeAsks(context, rules)
  {
    var v := Decide(context, rules).outcome;
    OutcomeShape(context, rules, v);
    AllowByShape(SomeAsks(context, rules), SomeObliges(context, rules), SomePermits(context, rules), v);
  }

  lemma AllowByShape(asks: bool, obliges: bool, permits: bool, v: Verdict)
    requires Shape(asks, obliges, permits, v)
    ensures v == ALLOW <==> permits && !obliges && !asks
  {
  }

  /** REVIEW is reported exactly when an open question is, and BLOCK never is. */
  lemma ReviewExactlyWhenAsked(context: Context, rules: seq<Rule>)
    ensures Decide(context, rules).outcome == REVIEW <==> Decide(context, rules).openQuestions != []
    ensures Decide(context, rules).outcome != BLOCK
  {
    if context.jurisdictions != [] && Selected(context, rules) != [] {
      ContributionsModerate(Selected(context, rules), context.subjectIsChild, Asserted(context));
      ModerateLowered(Findings(context, rules).obligations);
    }
  }

  lemma HeadOfSorted(obligations: seq<Obligation>, v: Verdict)
    requires Lowered(obligations) == v != ALLOW
    ensures var sorted := Sort(obligations, BySeverity);
            && sorted != [] && sorted[0].verdict == v
            && forall o :: o in sorted ==> Severity(v) <= Severity(o.verdict)
  {
    var sorted := Sort(obligations, BySeverity);
    BySeverityOrders();
    SortSorts(obligations, BySeverity);
    LoweredIsLeast(obligations);
    forall o ensures o in sorted <==> o in obligations {
      assert o in multiset(sorted) <==> o in multiset(obligations);
    }
    var o :| o in obligations && o.verdict == v;
    var k :| 0 <= k < |sorted| && sorted[k] == o;
    assert sorted[0] in obligations;
    assert k > 0 ==> BySeverity(sorted[0], sorted[k]);
    SeverityInjective(sorted[0].verdict, v);
  }

  /** With nothing open and no permission standing alone, the first obligation listed is the verdict. */
  lemma OtherwiseMostSevereObligation(context: Context, rules: seq<Rule>)
    requires Decide(context, rules).outcome !in {ALLOW, REVIEW}
    ensures var d := Decide(context, rules);
            && d.obligations != [] && d.obligations[0].verdict == d.outcome
            && forall o :: o in d.obligations ==> Severity(d.outcome) <= Severity(o.verdict)
  {
    DecideConcludes(context, rules);
    ContributionsModerate(Selected(context, rules), context.subjectIsChild, Asserted(context));
    ModerateLowered(Findings(context, rules).obligations);
    HeadOfSorted(Findings(context, rules).obligations, Decide(context, rules).outcome);
  }

  lemma BySeverityOrders()
    ensures TotalPreorder(BySeverity)
  {
    LeqOrders();
    forall a, b ensures BySeverity(a, b) || BySeverity(b, a) {
      SeverityInjective(a.verdict, b.verdict);
    }
    forall a, b, c | BySeverity(a, b) && BySeverity(b, c) ensures BySeverity(a, c) {
    }
  }

  lemma SeverityInjective(a: Verdict, b: Verdict)
    ensures Severity(a) == Severity(b) ==> a == b
  {
  }

  // ---- Asserting more conditions --------------------------------------------

  lemma UnmetShrinks(conditions: seq<string>, fewer: set<string>, more: set<string>)
    requires fewer <= more
    ensures Unmet(conditions, fewer) == [] ==> Unmet(conditions, more) == []
  {
    if Unmet(conditions, more) != [] {
      var c := Unmet(conditions, more)[0];
      assert c in Unmet(conditions, more);
      FilterMember(conditions, x => x !in more, c);
      FilterMember(conditions, x => x !in fewer, c);
    }
  }

  lemma JoinedUnmetShrinks(a: seq<string>, b: seq<string>, fewer: set<string>, more: set<string>)
    requires fewer <= more
    ensures Unmet(a, fewer) + Unmet(b, fewer) == [] ==> Unmet(a, more) + Unmet(b, more) == []
  {
    UnmetShrinks(a, fewer, more);
    UnmetShrinks(b, fewer, more);
  }

  /**
   * How a contribution may change: the same verdicts obliged, no condition newly open, no question
   * newly raised, no permission lost, and a permission gained only in place of a question.
   */
  ghost predicate Eased(a: Work, b: Work) {
    && |a.obligations| == |b.obligations| <= 2
    && (forall i :: 0 <= i < |a.obligations| ==>
          a.obligations[i].verdict == b.obligations[i].verdict
          && (a.obligations[i].unevaluated == [] ==> b.obligations[i].unevaluated == []))
    && (b.questions != [] ==> a.questions != [])
    && (a.permissions != [] ==> b.permissions != [])
    && (b.permissions != [] ==> a.permissions != [] || a.questions != [])
  }

  lemma ChildrenPartEases(rule: Rule, child: Option<bool>, fewer: set<string>, more: set<string>)
    requires fewer <= more && rule.children.Some?
    ensures Eased(ChildrenPart(rule, child, fewer), ChildrenPart(rule, child, more))
  {
    if rule.consent.Some? {
      JoinedUnmetShrinks(rule.consent.value.conditions, rule.children.value.conditions, fewer, more);
    }
  }

  lemma ConsentPartEases(rule: Rule, fewer: set<string>, more: set<string>)
    requires fewer <= more && rule.consent.Some? && rule.topic.Some?
    ensures Eased(ConsentPart(rule, fewer), ConsentPart(rule, more))
  {
    UnmetShrinks(rule.consent.value.conditions, fewer, more);
  }

  lemma OtherPartEases(rule: Rule, fewer: set<string>, more: set<string>)
    requires fewer <= more && rule.topic.Some?
    ensures Eased(OtherPart(rule, fewer), OtherPart(rule, more))
  {
    if rule.optOut.Some? {
      UnmetShrinks(rule.optOut.value.conditions, fewer, more);
    }
  }

  lemma ContributionEases(rule: Rule, child: Option<bool>, fewer: set<string>, more: set<string>)
    requires fewer <= more
    ensures Eased(Contribution(rule, child, fewer), Contribution(rule, child, more))
  {
    if rule.applies && rule.topic.Some? {
      if rule.children.Some? && rule.children.value.applies {
        ChildrenPartEases(rule, child, fewer, more);
      } else {
        if rule.consent.Some? {
          ConsentPartEases(rule, fewer, more);
        }
        OtherPartEases(rule, fewer, more);
      }
    }
  }

  /** For one rule, asserting more removes questions, keeps what is obliged, and adds permissions only in place of questions. */
  lemma RuleUnderMoreAssertions(rule: Rule, child: Option<bool>, fewer: set<string>, more: set<string>)
    requires fewer <= more
    ensures Pull(rule, child, more) == Pull(rule, child, fewer)
    ensures Obliges(rule, child, more) <==> Obliges(rule, child, fewer)
    ensures Asks(rule, child, more) ==> Asks(rule, child, fewer)
    ensures Permits(rule, child, fewer) ==> Permits(rule, child, more)
    ensures Permits(rule, child, more) ==> Permits(rule, child, fewer) || Asks(rule, child, fewer)
  {
    ContributionEases(rule, child, fewer, more);
    EasedMeans(Contribution(rule, child, fewer), Contribution(rule, child, more));
  }

  lemma EasedMeans(a: Work, b: Work)
    requires Eased(a, b)
    ensures Lowered(a.obligations) == Lowered(b.obligations)
    ensures b.questions != [] || HalfAnswered(b.obligations) != [] ==> a.questions != [] || HalfAnswered(a.obligations) != []
  {
    LoweredByVerdicts(a.obligations, b.obligations);
    HalfAnsweredShort(a.obligations);
    HalfAnsweredShort(b.obligations);
  }

  lemma HalfAnsweredLast(obligations: seq<Obligation>)
    requires obligations != []
    ensures HalfAnswered(obligations) != []
            <==> HalfAnswered(obligations[..|obligations| - 1]) != [] || obligations[|obligations| - 1].unevaluated != []
  {
  }

  lemma HalfAnsweredShort(obligations: seq<Obligation>)
    requires |obligations| <= 2
    ensures HalfAnswered(obligations) != [] <==> exists i :: 0 <= i < |obligations| && obligations[i].unevaluated != []
  {
    if obligations != [] {
      HalfAnsweredLast(obligations);
      var rest := obligations[..|obligations| - 1];
      if rest != [] {
        HalfAnsweredLast(rest);
        assert rest[..0] == [] && rest[0] == obligations[0];
      }
    }
  }

  lemma {:induction false} LoweredByVerdicts(a: seq<Obligation>, b: seq<Obligation>)
    requires |a| == |b| && forall i :: 0 <= i < |a| ==> a[i].verdict == b[i].verdict
    ensures Lowered(a) == Lowered(b)
  {
    if a != [] {
      LoweredByVerdicts(a[..|a| - 1], b[..|b| - 1]);
    }
  }

  /** The context with its asserted conditions replaced. */
  function Asserting(context: Context, conditions: seq<string>): Context {
    context.(assertedConditions := conditions)
  }

  predicate AssertsMore(context: Context, more: seq<string>) {
    forall c :: c in context.assertedConditions ==> c in more
  }

  lemma AsksFade(context: Context, more: seq<string>, rules: seq<Rule>)
    requires AssertsMore(context, more)
    ensures SomeAsks(Asserting(context, more), rules) ==> SomeAsks(context, rules)
  {
    var after := Asserting(context, more);
    var child, fewer, now := context.subjectIsChild, Asserted(context), Asserted(after);
    if SomeAsks(after, rules) {
      var r :| r in rules && Reached(after, rules, r) && Asks(r, child, now);
      RuleUnderMoreAssertions(r, child, fewer, now);
      assert Reached(context, rules, r);
    }
  }

  lemma PermitsReplaceQuestions(context: Context, more: seq<string>, rules: seq<Rule>)
    requires AssertsMore(context, more)
    ensures SomePermits(Asserting(context, more), rules) ==> SomePermits(context, rules) || SomeAsks(context, rules)
  {
    var after := Asserting(context, more);
    var child, fewer, now := context.subjectIsChild, Asserted(context), Asserted(after);
    if SomePermits(after, rules) {
      var r :| r in rules && Reached(after, rules, r) && Permits(r, child, now);
      RuleUnderMoreAssertions(r, child, fewer, now);
      assert Reached(context, rules, r);
    }
  }

  lemma PermitsStay(context: Context, more: seq<string>, rules: seq<Rule>)
    requires AssertsMore(context, more)
    ensures SomePermits(context, rules) ==> SomePermits(Asserting(context, more), rules)
  {
    var after := Asserting(context, more);
    var child, fewer, now := context.subjectIsChild, Asserted(context), Asserted(after);
    if SomePermits(context, rules) {
      var r :| r in rules && Reached(context, rules, r) && Permits(r, child, fewer);
      RuleUnderMoreAssertions(r, child, fewer, now);
      assert Reached(after, rules, r);
    }
  }

  lemma ObligationsStay(context: Context, more: seq<string>, rules: seq<Rule>)
    requires AssertsMore(context, more)
    ensures SomeObliges(context, rules) <==> SomeObliges(Asserting(context, more), rules)
    ensures forall v, w :: MostSevere(context, rules, v) && MostSevere(Asserting(context, more), rules, w) ==> v == w
  {
    var after := Asserting(context, more);
    var child, fewer, now := context.subjectIsChild, Asserted(context), Asserted(after);
    forall r
      ensures Reached(after, rules, r) <==> Reached(context, rules, r)
      ensures Pull(r, child, now) == Pull(r, child, fewer)
      ensures Obliges(r, child, now) <==> Obliges(r, child, fewer)
    {
      RuleUnderMoreAssertions(r, child, fewer, now);
    }
    forall v, w | MostSevere(context, rules, v) && MostSevere(after, rules, w) ensures v == w {
      SeverityInjective(v, w);
    }
  }

  /** Asserting more conditions never makes the outcome more restrictive. */
  lemma AssertingMoreNeverRestricts(context: Context, more: seq<string>, rules: seq<Rule>)
    requires AssertsMore(context, more)
    ensures Severity(Decide(Asserting(context, more), rules).outcome) >= Severity(Decide(context, rules).outcome)
  {
    var after := Asserting(context, more);
    AsksFade(context, more, rules);
    PermitsReplaceQuestions(context, more, rules);
    PermitsStay(context, more, rules);
    ObligationsStay(context, more, rules);
    OutcomeIs(context, rules);
    OutcomeIs(after, rules);
    NeverBlocks(after, rules);
  }

  lemma NeverBlocks(context: Context, rules: seq<Rule>)
    ensures Severity(Decide(context, rules).outcome) >= 1
  {
    ReviewExactlyWhenAsked(context, rules);
    OnlyBlockIsSeverest(Decide(context, rules).outcome);
  }

  lemma OnlyBlockIsSeverest(v: Verdict)
    ensures v != BLOCK ==> Severity(v) >= 1
  {
  }

  // ---- Widening the context -------------------------------------------------

  /** The same question, put for at least the same jurisdictions and roles. */
  predicate Widens(context: Context, wider: Context) {
    && (forall j :: j in context.jurisdictions ==> j in wider.jurisdictions)
    && (forall a :: a in context.actors ==> a in wider.actors)
    && wider == context.(jurisdictions := wider.jurisdictions, actors := wider.actors)
  }

  lemma WiderReachesMore(context: Context, wider: Context, rules: seq<Rule>)
    requires Widens(context, wider)
    ensures forall r :: Reached(context, rules, r) ==> Reached(wider, rules, r)
  {
    forall r | Reached(context, rules, r) ensures Reached(wider, rules, r) {
      assert Meets(r.regions, wider.jurisdictions);
      assert r.actors != [] ==> Meets(r.actors, wider.actors);
    }
  }

  /**
   * Adding jurisdictions or roles makes the outcome less restrictive in one case only: nothing
   * reaching the narrow context found anything, and the wide one finds something and asks nothing.
   */
  lemma WideningRelaxesIff(context: Context, wider: Context, rules: seq<Rule>)
    requires Widens(context, wider)
    ensures Severity(Decide(wider, rules).outcome) > Severity(Decide(context, rules).outcome)
            <==> !HasFinding(context, rules) && HasFinding(wider, rules) && !SomeAsks(wider, rules)
  {
    SomeWiden(context, wider, rules);
    var v, w := Decide(context, rules).outcome, Decide(wider, rules).outcome;
    OutcomeIs(context, rules);
    OutcomeIs(wider, rules);
    OutcomeShape(context, rules, v);
    OutcomeShape(wider, rules, w);
    MostSevereWidens(context, wider, rules, v, w);
    RelaxesByShape(SomeAsks(context, rules), SomeObliges(context, rules), SomePermits(context, rules), v,
                   SomeAsks(wider, rules), SomeObliges(wider, rules), SomePermits(wider, rules), w);
  }

  lemma SomeWiden(context: Context, wider: Context, rules: seq<Rule>)
    requires Widens(context, wider)
    ensures SomeObliges(context, rules) ==> SomeObliges(wider, rules)
    ensures SomePermits(context, rules) ==> SomePermits(wider, rules)
    ensures SomeAsks(context, rules) ==> SomeAsks(wider, rules)
  {
    WiderReachesMore(context, wider, rules);
  }

  lemma MostSevereWidens(context: Context, wider: Context, rules: seq<Rule>, v: Verdict, w: Verdict)
    requires Widens(context, wider)
    ensures MostSevere(context, rules, v) && MostSevere(wider, rules, w) ==> Severity(w) <= Severity(v)
  {
    WiderReachesMore(context, wider, rules);
    if PulledBySome(context, rules, v) && NonePullsHarder(wider, rules, w) {
      var r :| r in rules && Reached(context, rules, r) && Obliges(r, context.subjectIsChild, Asserted(context))
               && Pull(r, context.subjectIsChild, Asserted(context)) == v;
      assert Reached(wider, rules, r);
    }
  }

  lemma RelaxesByShape(asks: bool, obliges: bool, permits: bool, v: Verdict, asks2: bool, obliges2: bool, permits2: bool, w: Verdict)
    requires Shape(asks, obliges, permits, v) && Shape(asks2, obliges2, permits2, w)
    requires (asks ==> asks2) && (obliges ==> obliges2) && (permits ==> permits2)
    requires !asks && obliges && !asks2 ==> Severity(w) <= Severity(v)
    ensures Severity(w) > Severity(v)
            <==> !(permits || obliges || asks) && (permits2 || obliges2 || asks2) && !asks2
  {
  }

  /** So an outcome that rests on a finding only ever gets stricter as the context widens. */
  lemma WideningNeverRelaxesAFinding(context: Context, wider: Context, rules: seq<Rule>)
    requires Widens(context, wider) && HasFinding(context, rules)
    ensures Severity(Decide(wider, rules).outcome) <= Severity(Decide(context, rules).outcome)
  {
    WideningRelaxesIff(context, wider, rules);
  }

  // ---- The order of the rule set --------------------------------------------

  predicate DistinctIds(rules: seq<Rule>) {
    forall r, s :: r in rules && s in rules && r.id == s.id ==> r == s
  }

  /** Rearranging a rule set with distinct ids changes nothing in the decision. */
  lemma RuleOrderIsIrrelevant(context: Context, rules: seq<Rule>, rearranged: seq<Rule>)
    requires multiset(rules) == multiset(rearranged) && DistinctIds(rules)
    ensures Decide(context, rules) == Decide(context, rearranged)
  {
    var keep := (r: Rule) => Excluded(context, r).None?;
    FilterMultiset(rules, keep);
    FilterMultiset(rearranged, keep);
    var a, b := Reaching(context, rules), Reaching(context, rearranged);
    assert a == Filter(rules, keep) && b == Filter(rearranged, keep);
    assert multiset(a) == multiset(b);
    ByIdOrders();
    LeqOrders();
    forall x, y | x in a && y in a && ById(x, y) && ById(y, x) ensures x == y {
      FilterMember(rules, keep, x);
      FilterMember(rules, keep, y);
    }
    SortForgetsOrder(a, b, ById);
  }
}
