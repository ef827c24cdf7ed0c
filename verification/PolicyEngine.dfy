/**
 * The policy evaluator: which rules reach a context, what each contributes, and how the
 * contributions resolve into one verdict. Rule sets are arbitrary; the topic table is the shipped one.
 */
module PolicyEngine {
  import opened Text
  import opened Sequences

  // ---- Vocabulary -----------------------------------------------------------

  datatype Topic =
    | Applicability | EffectiveDates | LawfulBasis | ConsentTopic | TrackingAndStorage | DirectMarketing
    | SaleAndSharing | OptOutSignals | Withdrawal | Rights | Notice | SensitiveData | ChildrenTopic
    | InternationalTransfer | AutomatedDecisionMaking | Security | Retention | Accountability
    | VendorRelationship | NonDiscrimination | Enforcement

  datatype Disposition = Gate | ObligationTopic | Organisational | Scoping | Informational | ConditionalTopic

  /** Most restrictive first. */
  datatype Verdict = BLOCK | REVIEW | REQUIRE_CONSENT | REQUIRE_OPT_OUT | REQUIRE_USER_ACTION | REQUIRE_NOTICE | ALLOW

  function Severity(v: Verdict): nat {
    match v
    case BLOCK => 0 case REVIEW => 1 case REQUIRE_CONSENT => 2 case REQUIRE_OPT_OUT => 3
    case REQUIRE_USER_ACTION => 4 case REQUIRE_NOTICE => 5 case ALLOW => 6
  }

  function MoreRestrictive(a: Verdict, b: Verdict): Verdict {
    if Severity(a) <= Severity(b) then a else b
  }

  function DispositionOf(t: Topic): (Disposition, Option<Verdict>) {
    match t
    case Applicability => (Scoping, None)
    case EffectiveDates => (Scoping, None)
    case LawfulBasis => (ConditionalTopic, Some(REVIEW))
    case ConsentTopic => (Gate, Some(REQUIRE_CONSENT))
    case TrackingAndStorage => (Gate, Some(REQUIRE_CONSENT))
    case DirectMarketing => (Gate, Some(REQUIRE_CONSENT))
    case SaleAndSharing => (Gate, Some(REQUIRE_OPT_OUT))
    case OptOutSignals => (ObligationTopic, Some(REQUIRE_OPT_OUT))
    case Withdrawal => (ObligationTopic, Some(REQUIRE_USER_ACTION))
    case Rights => (ObligationTopic, Some(REQUIRE_USER_ACTION))
    case Notice => (ObligationTopic, Some(REQUIRE_NOTICE))
    case SensitiveData => (ConditionalTopic, Some(REVIEW))
    case ChildrenTopic => (ConditionalTopic, Some(REVIEW))
    case InternationalTransfer => (ConditionalTopic, Some(REVIEW))
    case AutomatedDecisionMaking => (ConditionalTopic, Some(REVIEW))
    case Security => (Organisational, None)
    case Retention => (Organisational, None)
    case Accountability => (Organisational, None)
    case VendorRelationship => (Organisational, None)
    case NonDiscrimination => (ObligationTopic, Some(REQUIRE_USER_ACTION))
    case Enforcement => (Informational, None)
  }

  datatype Required = Yes | No | Conditional
  datatype ConsentField = ConsentField(required: Required, conditions: seq<string>, withdrawalRequired: bool)
  datatype OptOutField = OptOutField(available: bool, conditions: seq<string>)
  datatype ChildrenField = ChildrenField(applies: bool, conditions: seq<string>)
  datatype DateField = NotRecorded | Unparseable | At(instant: int)

  /** `derived` stands for an authority level of "derived"; a citation carries the rule it cites. */
  datatype Rule = Rule(
    id: string, regime: string, regions: seq<string>, topic: Option<Topic>, derived: bool, applies: bool,
    actors: seq<string>, purposes: seq<string>, dataCategories: seq<string>, contexts: seq<string>,
    consent: Option<ConsentField>, optOut: Option<OptOutField>, children: Option<ChildrenField>,
    effectiveFrom: DateField, effectiveTo: DateField)

  datatype Context = Context(
    jurisdictions: seq<string>, actors: seq<string>, asOf: int, purpose: Option<string>,
    dataCategories: Option<seq<string>>, processingContexts: Option<seq<string>>,
    subjectIsChild: Option<bool>, assertedConditions: seq<string>, includeDerivedModels: bool)

  datatype Reason =
    | NoJurisdictionGiven | NoRequirementsForContext | ConditionalConsent | ConditionalExemption | ChildrenReason
    | UnevaluatedConditions | UnclassifiedTopic | DerivedAuthority | StatesAnAbsence

  datatype Obligation = Obligation(verdict: Verdict, citation: Rule, unevaluated: seq<string>)
  datatype Permission = Permission(citation: Rule, satisfiedByAssertion: seq<string>)
  datatype Question = Question(reason: Reason, citation: Option<Rule>)

  /** The lists a rule pushes onto. */
  datatype Work = Work(obligations: seq<Obligation>, permissions: seq<Permission>, questions: seq<Question>, absences: seq<Rule>)

  const NOTHING := Work([], [], [], [])

  function Plus(a: Work, b: Work): Work {
    Work(a.obligations + b.obligations, a.permissions + b.permissions, a.questions + b.questions, a.absences + b.absences)
  }

  // ---- One rule's contribution ----------------------------------------------

  function Unmet(conditions: seq<string>, asserted: set<string>): seq<string> {
    Filter(conditions, c => c !in asserted)
  }

  function AskAbout(reason: Reason, rule: Rule): seq<Question> {
    [Question(reason, Some(rule))]
  }

  /** What one rule adds, with the branches in the order the source gives them. */
  function Contribution(rule: Rule, child: Option<bool>, asserted: set<string>): Work {
    if !rule.applies then NOTHING.(absences := [rule])
    else if rule.topic.None? then NOTHING.(questions := AskAbout(UnclassifiedTopic, rule))
    else
      var first := if rule.derived then NOTHING.(questions := AskAbout(DerivedAuthority, rule)) else NOTHING;
      Plus(first,
           if rule.children.Some? && rule.children.value.applies then ChildrenPart(rule, child, asserted)
           else if rule.consent.Some? && (rule.consent.value.required != No || DispositionOf(rule.topic.value).0 == Gate)
           then ConsentPart(rule, asserted)
           else OtherPart(rule, asserted))
  }

  function ChildrenPart(rule: Rule, child: Option<bool>, asserted: set<string>): Work
    requires rule.children.Some?
  {
    if child == Some(false) then NOTHING
    else
      var childConditions := Unmet(rule.children.value.conditions, asserted);
      Work(if rule.consent.Some? && rule.consent.value.required == Yes
           then [Obligation(REQUIRE_CONSENT, rule, Unmet(rule.consent.value.conditions, asserted) + childConditions)]
                + (if rule.consent.value.withdrawalRequired then [Obligation(REQUIRE_USER_ACTION, rule, [])] else [])
           else [],
           [], AskAbout(ChildrenReason, rule), [])
  }

  function ConsentPart(rule: Rule, asserted: set<string>): Work
    requires rule.consent.Some? && rule.topic.Some?
  {
    var conditions := Unmet(rule.consent.value.conditions, asserted);
    match rule.consent.value.required
    case Yes =>
      NOTHING.(obligations :=
        [Obligation(REQUIRE_CONSENT, rule, conditions)]
        + (if rule.consent.value.withdrawalRequired || DispositionOf(rule.topic.value).1 == Some(REQUIRE_USER_ACTION)
           then [Obligation(REQUIRE_USER_ACTION, rule, [])] else []))
    case Conditional => NOTHING.(questions := AskAbout(ConditionalConsent, rule))
    case No =>
      if conditions == []
      then NOTHING.(permissions := [Permission(rule, Filter(rule.consent.value.conditions, c => c in asserted))])
      else NOTHING.(questions := AskAbout(ConditionalExemption, rule))
  }

  function OtherPart(rule: Rule, asserted: set<string>): Work
    requires rule.topic.Some?
  {
    var (disposition, verdict) := DispositionOf(rule.topic.value);
    if rule.optOut.Some? && rule.optOut.value.available
    then NOTHING.(obligations := [Obligation(REQUIRE_OPT_OUT, rule, Unmet(rule.optOut.value.conditions, asserted))])
    else match disposition
      case Gate => TopicObligation(rule, verdict)
      case ObligationTopic => TopicObligation(rule, verdict)
      case ConditionalTopic => NOTHING.(questions := AskAbout(UnevaluatedConditions, rule))
      case _ => NOTHING
  }

  function TopicObligation(rule: Rule, verdict: Option<Verdict>): Work {
    if verdict.Some? && verdict.value != ALLOW && verdict.value != REVIEW
    then NOTHING.(obligations := [Obligation(verdict.value, rule, [])])
    else NOTHING
  }

  /** The shared record every rule's contribution is pushed onto. */
  class Working {
    var obligations: seq<Obligation>
    var permissions: seq<Permission>
    var questions: seq<Question>
    var absences: seq<Rule>

    constructor ()
      ensures Value() == NOTHING
    {
      obligations, permissions, questions, absences := [], [], [], [];
    }

    function Value(): Work
      reads this
    {
      Work(obligations, permissions, questions, absences)
    }

    method Oblige(verdict: Verdict, rule: Rule, unevaluated: seq<string>)
      modifies this
      ensures Value() == old(Value()).(obligations := old(obligations) + [Obligation(verdict, rule, unevaluated)])
    {
      obligations := obligations + [Obligation(verdict, rule, unevaluated)];
    }

    method Ask(reason: Reason, rule: Rule)
      modifies this
      ensures Value() == old(Value()).(questions := old(questions) + AskAbout(reason, rule))
    {
      questions := questions + [Question(reason, Some(rule))];
    }
  }

  lemma PlusNothing(w: Work)
    ensures Plus(w, NOTHING) == w && Plus(NOTHING, w) == w
  {
  }

  method ContributeChildren(rule: Rule, child: Option<bool>, asserted: set<string>, out: Working)
    requires rule.children.Some?
    modifies out
    ensures out.Value() == Plus(old(out.Value()), ChildrenPart(rule, child, asserted))
  {
    PlusNothing(out.Value());
    if child == Some(false) {
      return;
    }
    var childConditions := Unmet(rule.children.value.conditions, asserted);
    if rule.consent.Some? && rule.consent.value.required == Yes {
      out.Oblige(REQUIRE_CONSENT, rule, Unmet(rule.consent.value.conditions, asserted) + childConditions);
      if rule.consent.value.withdrawalRequired {
        out.Oblige(REQUIRE_USER_ACTION, rule, []);
      }
    }
    out.Ask(ChildrenReason, rule);
  }

  /** The consent block; `handled` is false when it falls through to the opt-out field. */
  method ContributeConsent(rule: Rule, disposition: Disposition, verdict: Option<Verdict>, asserted: set<string>, out: Working)
    returns (handled: bool)
    requires rule.consent.Some? && rule.topic.Some? && DispositionOf(rule.topic.value) == (disposition, verdict)
    modifies out
    ensures handled == (rule.consent.value.required != No || disposition == Gate)
    ensures out.Value() == Plus(old(out.Value()), if handled then ConsentPart(rule, asserted) else NOTHING)
  {
    PlusNothing(out.Value());
    var conditions := Unmet(rule.consent.value.conditions, asserted);
    if rule.consent.value.required == Yes {
      out.Oblige(REQUIRE_CONSENT, rule, conditions);
      if rule.consent.value.withdrawalRequired || verdict == Some(REQUIRE_USER_ACTION) {
        out.Oblige(REQUIRE_USER_ACTION, rule, []);
      }
      return true;
    }
    if rule.consent.value.required == Conditional {
      out.Ask(ConditionalConsent, rule);
      return true;
    }
    if disposition == Gate {
      if conditions == [] {
        out.permissions := out.permissions + [Permission(rule, Filter(rule.consent.value.conditions, c => c in asserted))];
      } else {
        out.Ask(ConditionalExemption, rule);
      }
      return true;
    }
    return false;
  }

  method ContributeOther(rule: Rule, disposition: Disposition, verdict: Option<Verdict>, asserted: set<string>, out: Working)
    requires rule.topic.Some? && DispositionOf(rule.topic.value) == (disposition, verdict)
    modifies out
    ensures out.Value() == Plus(old(out.Value()), OtherPart(rule, asserted))
  {
    PlusNothing(out.Value());
    if rule.optOut.Some? && rule.optOut.value.available {
      out.Oblige(REQUIRE_OPT_OUT, rule, Unmet(rule.optOut.value.conditions, asserted));
      return;
    }
    match disposition {
      case Gate =>
        if verdict.Some? && verdict.value != ALLOW && verdict.value != REVIEW {
          out.Oblige(verdict.value, rule, []);
        }
      case ObligationTopic =>
        if verdict.Some? && verdict.value != ALLOW && verdict.value != REVIEW {
          out.Oblige(verdict.value, rule, []);
        }
      case ConditionalTopic =>
        out.Ask(UnevaluatedConditions, rule);
      case _ =>
    }
  }

  lemma PlusAssociates(a: Work, b: Work, c: Work)
    ensures Plus(Plus(a, b), c) == Plus(a, Plus(b, c))
  {
  }

  /** `contribute`: pushes exactly one rule's contribution onto the record. */
  method Contribute(rule: Rule, context: Context, asserted: set<string>, out: Working)
    modifies out
    ensures out.Value() == Plus(old(out.Value()), Contribution(rule, context.subjectIsChild, asserted))
  {
    ghost var was := out.Value();
    PlusNothing(was);
    if !rule.applies {
      out.absences := out.absences + [rule];
      return;
    }
    if rule.topic.None? {
      out.Ask(UnclassifiedTopic, rule);
      return;
    }
    var (disposition, verdict) := DispositionOf(rule.topic.value);
    if rule.derived {
      out.Ask(DerivedAuthority, rule);
    }
    ghost var first := if rule.derived then NOTHING.(questions := AskAbout(DerivedAuthority, rule)) else NOTHING;
    assert out.Value() == Plus(was, first);

    if rule.children.Some? && rule.children.value.applies {
      ContributeChildren(rule, context.subjectIsChild, asserted, out);
      PlusAssociates(was, first, ChildrenPart(rule, context.subjectIsChild, asserted));
      return;
    }
    if rule.consent.Some? {
      var handled := ContributeConsent(rule, disposition, verdict, asserted, out);
      if handled {
        PlusAssociates(was, first, ConsentPart(rule, asserted));
        return;
      }
      PlusNothing(Plus(was, first));
    }
    ContributeOther(rule, disposition, verdict, asserted, out);
    PlusAssociates(was, first, OtherPart(rule, asserted));
  }

  // ---- Selection ------------------------------------------------------------

  datatype Exclusion = Region | Actor | NotYetEffective | NoLongerEffective | DerivedModel | Purpose | DataCategory | ProcessingContext

  predicate Meets(a: seq<string>, b: seq<string>) {
    exists x :: x in a && x in b
  }

  /** A list that records something, against a context that asks about something, with nothing in common. */
  predicate NarrowedOut(recorded: seq<string>, asked: Option<seq<string>>) {
    asked.Some? && asked.value != [] && recorded != [] && !Meets(recorded, asked.value)
  }

  function InForce(rule: Rule, asOf: int): Option<Exclusion> {
    if rule.effectiveFrom.At? && asOf < rule.effectiveFrom.instant then Some(NotYetEffective)
    else if rule.effectiveTo.At? && asOf > rule.effectiveTo.instant then Some(NoLongerEffective)
    else None
  }

  /** The first filter that drops the rule, if any does. */
  function Excluded(context: Context, rule: Rule): Option<Exclusion> {
    if !Meets(rule.regions, context.jurisdictions) then Some(Region)
    else if rule.actors != [] && !Meets(rule.actors, context.actors) then Some(Actor)
    else if rule.derived && !context.includeDerivedModels then Some(DerivedModel)
    else if InForce(rule, context.asOf).Some? then InForce(rule, context.asOf)
    else if context.purpose.Some? && rule.purposes != [] && context.purpose.value !in rule.purposes then Some(Purpose)
    else if NarrowedOut(rule.dataCategories, context.dataCategories) then Some(DataCategory)
    else if NarrowedOut(rule.contexts, context.processingContexts) then Some(ProcessingContext)
    else None
  }

  predicate ById(a: Rule, b: Rule) {
    Leq(a.id, b.id)
  }

  function Reaching(context: Context, rules: seq<Rule>): seq<Rule> {
    Filter(rules, r => Excluded(context, r).None?)
  }

  function Selected(context: Context, rules: seq<Rule>): seq<Rule> {
    Sort(Reaching(context, rules), ById)
  }

  /** The recorded reasons; a later record under the same id replaces an earlier one. */
  function ExcludedMap(context: Context, rules: seq<Rule>): map<string, Exclusion> {
    if rules == [] then map[]
    else
      var last := rules[|rules| - 1];
      var before := ExcludedMap(context, rules[..|rules| - 1]);
      if Excluded(context, last).Some? then before[last.id := Excluded(context, last).value] else before
  }

  method SelectRules(context: Context, rules: seq<Rule>) returns (selected: seq<Rule>, excluded: map<string, Exclusion>)
    ensures selected == Selected(context, rules)
    ensures excluded == ExcludedMap(context, rules)
  {
    excluded := map[];
    selected := [];
    for i := 0 to |rules|
      invariant selected == Reaching(context, rules[..i])
      invariant excluded == ExcludedMap(context, rules[..i])
    {
      var rule := rules[i];
      assert rules[..i + 1] == rules[..i] + [rule] && rules[..i + 1][..i] == rules[..i];
      FilterAppend(rules[..i], [rule], r => Excluded(context, r).None?);
      var reason := Excluded(context, rule);
      if reason.Some? {
        excluded := excluded[rule.id := reason.value];
        continue;
      }
      selected := selected + [rule];
    }
    assert rules[..|rules|] == rules;
    selected := Sort(selected, ById);
  }

  lemma ByIdOrders()
    ensures TotalPreorder(ById)
  {
    LeqOrders();
  }

  lemma SelectedMember(context: Context, rules: seq<Rule>, r: Rule)
    ensures r in Selected(context, rules) <==> r in rules && Excluded(context, r).None?
  {
    ByIdOrders();
    SortSorts(Reaching(context, rules), ById);
    FilterMember(rules, r => Excluded(context, r).None?, r);
  }

  // ---- Evaluation -----------------------------------------------------------

  datatype Decision = Decision(
    outcome: Verdict, obligations: seq<Obligation>, permissions: seq<Permission>, openQuestions: seq<Question>,
    considered: seq<Rule>, regimes: seq<string>, assertedConditions: seq<string>)

  function Contributions(rules: seq<Rule>, child: Option<bool>, asserted: set<string>): Work {
    if rules == [] then NOTHING
    else Plus(Contributions(rules[..|rules| - 1], child, asserted), Contribution(rules[|rules| - 1], child, asserted))
  }

  /** The obligations pull the outcome back one by one. */
  function Lowered(obligations: seq<Obligation>): Verdict {
    if obligations == [] then ALLOW
    else MoreRestrictive(Lowered(obligations[..|obligations| - 1]), obligations[|obligations| - 1].verdict)
  }

  /** An obligation with conditions nobody evaluated also raises a question. */
  function HalfAnswered(obligations: seq<Obligation>): seq<Question> {
    if obligations == [] then []
    else
      var last := obligations[|obligations| - 1];
      HalfAnswered(obligations[..|obligations| - 1])
      + (if last.unevaluated != [] then AskAbout(UnevaluatedConditions, last.citation) else [])
  }

  predicate BySeverity(a: Obligation, b: Obligation) {
    Severity(a.verdict) < Severity(b.verdict) || (a.verdict == b.verdict && Leq(a.citation.id, b.citation.id))
  }

  function Distinct(items: seq<string>): seq<string> {
    if items == [] then []
    else
      var before := Distinct(items[..|items| - 1]);
      if items[|items| - 1] in before then before else before + [items[|items| - 1]]
  }

  function Asserted(context: Context): set<string> {
    set c | c in context.assertedConditions
  }

  function Unresolved(context: Context, reason: Reason): Decision {
    Decision(REVIEW, [], [], [Question(reason, None)], [], [], Sort(Distinct(context.assertedConditions), Leq))
  }

  function Decide(context: Context, rules: seq<Rule>): Decision {
    if context.jurisdictions == [] then Unresolved(context, NoJurisdictionGiven)
    else if Selected(context, rules) == [] then Unresolved(context, NoRequirementsForContext)
    else DecideOn(context, Selected(context, rules))
  }

  function DecideOn(context: Context, selected: seq<Rule>): Decision {
    var work := Contributions(selected, context.subjectIsChild, Asserted(context));
    var questions := work.questions + HalfAnswered(work.obligations);
    var pulled := Lowered(work.obligations);
    var outcome := if questions != [] then MoreRestrictive(pulled, REVIEW) else pulled;
    var unfounded := outcome == ALLOW && work.permissions == [];
    Decision(
      if unfounded then REVIEW else outcome,
      Sort(work.obligations, BySeverity), work.permissions,
      questions + (if unfounded
                   then [Question(if |work.absences| == |selected| then StatesAnAbsence else NoRequirementsForContext, None)]
                   else []),
      selected, Sort(Distinct(Map(selected, (r: Rule) => r.regime)), Leq),
      Sort(Distinct(context.assertedConditions), Leq))
  }

  method Resolve(selected: seq<Rule>, context: Context, out: Working) returns (outcome: Verdict)
    requires out.Value() == Contributions(selected, context.subjectIsChild, Asserted(context))
    modifies out
    ensures outcome == DecideOn(context, selected).outcome
    ensures out.questions == DecideOn(context, selected).openQuestions
    ensures out.obligations == old(out.obligations) && out.permissions == old(out.permissions)
  {
    outcome := LowerAll(out);
    if |out.questions| > 0 {
      outcome := MoreRestrictive(outcome, REVIEW);
    }
    if outcome == ALLOW && |out.permissions| == 0 {
      outcome := REVIEW;
      out.questions := out.questions
        + [Question(if |out.absences| == |selected| then StatesAnAbsence else NoRequirementsForContext, None)];
    }
  }

  /** Every obligation lowers the outcome, and one whose conditions nobody evaluated asks about them. */
  method LowerAll(out: Working) returns (outcome: Verdict)
    modifies out
    ensures outcome == Lowered(old(out.obligations))
    ensures out.Value() == old(out.Value()).(questions := old(out.questions) + HalfAnswered(old(out.obligations)))
  {
    ghost var work := out.Value();
    outcome := ALLOW;
    for i := 0 to |out.obligations|
      invariant out.Value() == work.(questions := work.questions + HalfAnswered(work.obligations[..i]))
      invariant outcome == Lowered(work.obligations[..i])
    {
      var o := out.obligations[i];
      assert work.obligations[..i + 1][..i] == work.obligations[..i];
      outcome := MoreRestrictive(outcome, o.verdict);
      if |o.unevaluated| > 0 {
        out.Ask(UnevaluatedConditions, o.citation);
      }
    }
    assert work.obligations[..|work.obligations|] == work.obligations;
  }

  method Evaluate(context: Context, rules: seq<Rule>) returns (d: Decision)
    ensures d == Decide(context, rules)
  {
    if context.jurisdictions == [] {
      return Unresolved(context, NoJurisdictionGiven);
    }
    var selected, _ := SelectRules(context, rules);
    if selected == [] {
      return Unresolved(context, NoRequirementsForContext);
    }
    var asserted := Asserted(context);
    var out := new Working();
    for i := 0 to |selected|
      invariant fresh(out)
      invariant out.Value() == Contributions(selected[..i], context.subjectIsChild, asserted)
    {
      assert selected[..i + 1][..i] == selected[..i];
      Contribute(selected[i], context, asserted, out);
    }
    assert selected[..|selected|] == selected;
    var outcome := Resolve(selected, context, out);
    d := Decision(outcome, Sort(out.obligations, BySeverity), out.permissions, out.questions, selected,
                  Sort(Distinct(Map(selected, (r: Rule) => r.regime)), Leq),
                  Sort(Distinct(context.assertedConditions), Leq));
  }
}
