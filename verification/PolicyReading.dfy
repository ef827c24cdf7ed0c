/** What a rule asks for, read off its own fields, and what a decision comes to. */
module PolicyReading {
  // The evaluator pushes contributions branch by branch. Here each rule is read declaratively, by what it
  // records about consent, children, opt-out and its topic; the evaluator's decisions are shown to be those.

  import opened Text
  import opened Sequences
  import opened PolicyEngine
  import opened PolicyVerdicts

  // ---- Topics ---------------------------------------------------------------

  predicate ConsentGate(t: Topic) { t in {ConsentTopic, TrackingAndStorage, DirectMarketing} }

  predicate GateTopic(t: Topic) { ConsentGate(t) || t == SaleAndSharing }

  predicate UserActionTopic(t: Topic) { t in {Withdrawal, Rights, NonDiscrimination} }

  predicate OptOutTopic(t: Topic) { t in {SaleAndSharing, OptOutSignals} }

  predicate FactualTopic(t: Topic) { t in {LawfulBasis, SensitiveData, ChildrenTopic, InternationalTransfer, AutomatedDecisionMaking} }

  // ---- One rule -------------------------------------------------------------

  /** The rule imposes something, on a topic that is known. */
  predicate OnTopic(rule: Rule) { rule.applies && rule.topic.Some? }

  predicate ForChildren(rule: Rule) { rule.children.Some? && rule.children.value.applies }

  /** A rule about children is out of play only where the subject is stated to be no child. */
  predicate InPlay(rule: Rule, child: Option<bool>) {
    OnTopic(rule) && (ForChildren(rule) ==> child != Some(false))
  }

  predicate ConsentIs(rule: Rule, required: Required) { rule.consent.Some? && rule.consent.value.required == required }

  predicate OffersOptOut(rule: Rule) { rule.optOut.Some? && rule.optOut.value.available }

  /** Neither children nor the rule's own word on consent settle it: consent not being required settles only a gate. */
  predicate LeftToTopic(rule: Rule) {
    OnTopic(rule) && !ForChildren(rule)
    && (rule.consent.None? || (ConsentIs(rule, No) && !GateTopic(rule.topic.value)))
  }

  predicate Owes(rule: Rule, child: Option<bool>, v: Verdict) {
    InPlay(rule, child)
    && match v
       case REQUIRE_CONSENT =>
         ConsentIs(rule, Yes) || (LeftToTopic(rule) && !OffersOptOut(rule) && ConsentGate(rule.topic.value))
       case REQUIRE_OPT_OUT =>
         LeftToTopic(rule) && (OffersOptOut(rule) || OptOutTopic(rule.topic.value))
       case REQUIRE_USER_ACTION =>
         || (ConsentIs(rule, Yes) && (rule.consent.value.withdrawalRequired || (!ForChildren(rule) && UserActionTopic(rule.topic.value))))
         || (LeftToTopic(rule) && !OffersOptOut(rule) && UserActionTopic(rule.topic.value))
       case REQUIRE_NOTICE =>
         LeftToTopic(rule) && !OffersOptOut(rule) && rule.topic.value == Notice
       case _ => false
  }

  /** A condition that what the rule owes turns on, and that nobody has asserted. */
  predicate Open(rule: Rule, v: Verdict, asserted: set<string>, c: string) {
    c !in asserted
    && match v
       case REQUIRE_CONSENT =>
         ConsentIs(rule, Yes) && (c in rule.consent.value.conditions || (ForChildren(rule) && c in rule.children.value.conditions))
       case REQUIRE_OPT_OUT => OffersOptOut(rule) && c in rule.optOut.value.conditions
       case _ => false
  }

  /** On a gate, a record that consent is not required, all of whose conditions are asserted. */
  predicate Exempts(rule: Rule, asserted: set<string>) {
    OnTopic(rule) && !ForChildren(rule) && ConsentIs(rule, No) && GateTopic(rule.topic.value)
    && forall c :: c in rule.consent.value.conditions ==> c in asserted
  }

  predicate SomeOpen(rule: Rule, v: Verdict, asserted: set<string>) {
    && (v == REQUIRE_CONSENT ==> ConsentIs(rule, Yes)
                                 && (|| (exists c :: c in rule.consent.value.conditions && Open(rule, v, asserted, c))
                                     || (ForChildren(rule) && exists c :: c in rule.children.value.conditions && Open(rule, v, asserted, c))))
    && (v == REQUIRE_OPT_OUT ==> OffersOptOut(rule) && exists c :: c in rule.optOut.value.conditions && Open(rule, v, asserted, c))
  }

  /** The question a rule leaves open, by its reason. */
  predicate Wonders(rule: Rule, child: Option<bool>, asserted: set<string>, reason: Reason) {
    match reason
    case UnclassifiedTopic => rule.applies && rule.topic.None?
    case DerivedAuthority => OnTopic(rule) && rule.derived
    case ChildrenReason => InPlay(rule, child) && ForChildren(rule)
    case ConditionalConsent => OnTopic(rule) && !ForChildren(rule) && ConsentIs(rule, Conditional)
    case ConditionalExemption =>
      OnTopic(rule) && !ForChildren(rule) && ConsentIs(rule, No) && GateTopic(rule.topic.value)
      && exists c :: c in rule.consent.value.conditions && c !in asserted
    case UnevaluatedConditions =>
      || (LeftToTopic(rule) && !OffersOptOut(rule) && FactualTopic(rule.topic.value))
      || (Owes(rule, child, REQUIRE_CONSENT) && SomeOpen(rule, REQUIRE_CONSENT, asserted))
      || (Owes(rule, child, REQUIRE_OPT_OUT) && SomeOpen(rule, REQUIRE_OPT_OUT, asserted))
    case _ => false
  }

  ghost predicate SomeObligation(obligations: seq<Obligation>, rule: Rule, v: Verdict) {
    exists o :: o in obligations && o.citation == rule && o.verdict == v
  }

  /** What is listed is owed, each with the conditions it leaves open. */
  ghost predicate ListsOwed(obligations: seq<Obligation>, rule: Rule, child: Option<bool>, asserted: set<string>) {
    && |obligations| <= 2
    && (forall v :: SomeObligation(obligations, rule, v) <==> Owes(rule, child, v))
    && (forall o :: o in obligations ==> o.citation == rule && forall c :: c in o.unevaluated <==> Open(rule, o.verdict, asserted, c))
  }

  ghost predicate ListsExempt(permissions: seq<Permission>, rule: Rule, asserted: set<string>) {
    permissions == if Exempts(rule, asserted) then [Permission(rule, rule.consent.value.conditions)] else []
  }

  ghost predicate ListsAsked(questions: seq<Question>, rule: Rule, child: Option<bool>, asserted: set<string>) {
    forall q :: q in questions <==> q.citation == Some(rule) && Wonders(rule, child, asserted, q.reason)
  }

  // ---- The branches -----------------------------------------------------------

  lemma UnmetAre(conditions: seq<string>, asserted: set<string>)
    ensures forall c :: c in Unmet(conditions, asserted) <==> c in conditions && c !in asserted
    ensures Unmet(conditions, asserted) != [] <==> exists c :: c in conditions && c !in asserted
  {
    forall c ensures c in Unmet(conditions, asserted) <==> c in conditions && c !in asserted {
      FilterMember(conditions, c => c !in asserted, c);
    }
    if Unmet(conditions, asserted) != [] {
      assert Unmet(conditions, asserted)[0] in Unmet(conditions, asserted);
    }
  }

  lemma {:induction false} AllKept<T>(s: seq<T>, keep: T -> bool)
    requires forall x :: x in s ==> keep(x)
    ensures Filter(s, keep) == s
  {
    if s != [] {
      AllKept(s[1..], keep);
    }
  }

  lemma {:induction false} HalfAnsweredMember(obligations: seq<Obligation>, q: Question)
    ensures q in HalfAnswered(obligations) <==>
            q.reason == UnevaluatedConditions && exists o :: o in obligations && o.unevaluated != [] && q.citation == Some(o.citation)
  {
    if obligations != [] {
      HalfAnsweredMember(obligations[..|obligations| - 1], q);
      assert obligations == obligations[..|obligations| - 1] + [obligations[|obligations| - 1]];
    }
  }

  lemma ChildrenOwed(rule: Rule, child: Option<bool>, asserted: set<string>)
    requires OnTopic(rule) && ForChildren(rule)
    ensures ListsOwed(ChildrenPart(rule, child, asserted).obligations, rule, child, asserted)
  {
    UnmetAre(rule.children.value.conditions, asserted);
    if rule.consent.Some? { UnmetAre(rule.consent.value.conditions, asserted); }
    var owed := ChildrenPart(rule, child, asserted).obligations;
    assert ConsentIs(rule, Yes) && InPlay(rule, child) ==> owed[0].verdict == REQUIRE_CONSENT && owed[0] in owed;
    assert ConsentIs(rule, Yes) && InPlay(rule, child) && rule.consent.value.withdrawalRequired ==>
      owed[1].verdict == REQUIRE_USER_ACTION && owed[1] in owed;
  }

  lemma NoneOwed(rule: Rule, child: Option<bool>, asserted: set<string>)
    requires forall v :: !Owes(rule, child, v)
    ensures ListsOwed([], rule, child, asserted)
  {
  }

  lemma OneOwed(o: Obligation, rule: Rule, child: Option<bool>, asserted: set<string>)
    requires o.citation == rule && (forall v :: Owes(rule, child, v) <==> v == o.verdict)
    requires forall c :: c in o.unevaluated <==> Open(rule, o.verdict, asserted, c)
    ensures ListsOwed([o], rule, child, asserted)
  {
    assert o in [o];
  }

  lemma TwoOwed(o: Obligation, p: Obligation, rule: Rule, child: Option<bool>, asserted: set<string>)
    requires o.citation == rule == p.citation && (forall v :: Owes(rule, child, v) <==> v == o.verdict || v == p.verdict)
    requires forall c :: c in o.unevaluated <==> Open(rule, o.verdict, asserted, c)
    requires forall c :: c in p.unevaluated <==> Open(rule, p.verdict, asserted, c)
    ensures ListsOwed([o, p], rule, child, asserted)
  {
    assert o in [o, p] && p in [o, p];
  }

  lemma ConsentOwed(rule: Rule, child: Option<bool>, asserted: set<string>)
    requires OnTopic(rule) && !ForChildren(rule) && rule.consent.Some? && !LeftToTopic(rule)
    ensures ListsOwed(ConsentPart(rule, asserted).obligations, rule, child, asserted)
  {
    var consent := rule.consent.value;
    if consent.required == Yes {
      UnmetAre(consent.conditions, asserted);
      var o, p := Obligation(REQUIRE_CONSENT, rule, Unmet(consent.conditions, asserted)), Obligation(REQUIRE_USER_ACTION, rule, []);
      if consent.withdrawalRequired || UserActionTopic(rule.topic.value) {
        assert ConsentPart(rule, asserted).obligations == [o, p];
        TwoOwed(o, p, rule, child, asserted);
      } else {
        assert ConsentPart(rule, asserted).obligations == [o];
        OneOwed(o, rule, child, asserted);
      }
    } else {
      assert ConsentPart(rule, asserted).obligations == [];
      NoneOwed(rule, child, asserted);
    }
  }

  lemma OtherOwed(rule: Rule, child: Option<bool>, asserted: set<string>)
    requires LeftToTopic(rule)
    ensures ListsOwed(OtherPart(rule, asserted).obligations, rule, child, asserted)
  {
    if OffersOptOut(rule) {
      UnmetAre(rule.optOut.value.conditions, asserted);
      OneOwed(Obligation(REQUIRE_OPT_OUT, rule, Unmet(rule.optOut.value.conditions, asserted)), rule, child, asserted);
    } else {
      TopicOwed(rule, child, asserted);
    }
  }

  lemma TopicOwed(rule: Rule, child: Option<bool>, asserted: set<string>)
    requires LeftToTopic(rule) && !OffersOptOut(rule)
    ensures ListsOwed(OtherPart(rule, asserted).obligations, rule, child, asserted)
  {
    var owed := OtherPart(rule, asserted).obligations;
    if owed == [] {
      NoneOwed(rule, child, asserted);
    } else {
      assert owed == [owed[0]];
      OneOwed(owed[0], rule, child, asserted);
    }
  }

  /** What a branch asks outright. */
  predicate AsksOutright(rule: Rule, child: Option<bool>, asserted: set<string>, reason: Reason) {
    match reason
    case UnevaluatedConditions => LeftToTopic(rule) && !OffersOptOut(rule) && FactualTopic(rule.topic.value)
    case UnclassifiedTopic => false
    case DerivedAuthority => false
    case _ => Wonders(rule, child, asserted, reason)
  }

  ghost predicate BranchAsks(work: Work, rule: Rule, child: Option<bool>, asserted: set<string>) {
    && (forall q :: q in work.questions <==> q.citation == Some(rule) && AsksOutright(rule, child, asserted, q.reason))
    && ListsExempt(work.permissions, rule, asserted)
    && work.absences == []
  }

  lemma ChildrenAsk(rule: Rule, child: Option<bool>, asserted: set<string>)
    requires OnTopic(rule) && ForChildren(rule)
    ensures BranchAsks(ChildrenPart(rule, child, asserted), rule, child, asserted)
  {
  }

  lemma ConsentAsk(rule: Rule, child: Option<bool>, asserted: set<string>)
    requires OnTopic(rule) && !ForChildren(rule) && rule.consent.Some? && !LeftToTopic(rule)
    ensures BranchAsks(ConsentPart(rule, asserted), rule, child, asserted)
  {
    var conditions := rule.consent.value.conditions;
    UnmetAre(conditions, asserted);
    if Exempts(rule, asserted) {
      AllKept(conditions, c => c in asserted);
    }
  }

  lemma OtherAsk(rule: Rule, child: Option<bool>, asserted: set<string>)
    requires LeftToTopic(rule)
    ensures BranchAsks(OtherPart(rule, asserted), rule, child, asserted)
  {
  }

  /** What the branch taken for a rule adds, the confirmation of a derived one aside. */
  function Branch(rule: Rule, child: Option<bool>, asserted: set<string>): Work
    requires OnTopic(rule)
  {
    if ForChildren(rule) then ChildrenPart(rule, child, asserted)
    else if LeftToTopic(rule) then OtherPart(rule, asserted)
    else ConsentPart(rule, asserted)
  }

  lemma BranchReads(rule: Rule, child: Option<bool>, asserted: set<string>)
    requires OnTopic(rule)
    ensures ListsOwed(Branch(rule, child, asserted).obligations, rule, child, asserted)
    ensures BranchAsks(Branch(rule, child, asserted), rule, child, asserted)
  {
    if ForChildren(rule) {
      ChildrenOwed(rule, child, asserted);
      ChildrenAsk(rule, child, asserted);
    } else if LeftToTopic(rule) {
      OtherOwed(rule, child, asserted);
      OtherAsk(rule, child, asserted);
    } else {
      ConsentOwed(rule, child, asserted);
      ConsentAsk(rule, child, asserted);
    }
  }

  lemma ContributionIs(rule: Rule, child: Option<bool>, asserted: set<string>)
    ensures var work := Contribution(rule, child, asserted);
            if OnTopic(rule) then
              var branch := Branch(rule, child, asserted);
              && work.obligations == branch.obligations && work.permissions == branch.permissions && work.absences == branch.absences
              && work.questions == (if rule.derived then [Question(DerivedAuthority, Some(rule))] else []) + branch.questions
            else
              && work.obligations == [] && work.permissions == []
              && work.questions == (if rule.applies then [Question(UnclassifiedTopic, Some(rule))] else [])
              && work.absences == (if rule.applies then [] else [rule])
  {
    if OnTopic(rule) {
      assert GateTopic(rule.topic.value) <==> DispositionOf(rule.topic.value).0 == Gate;
    }
  }

  /** What one rule owes, exempts and asks, read off its fields. */
  ghost predicate Reads(work: Work, rule: Rule, child: Option<bool>, asserted: set<string>) {
    && ListsOwed(work.obligations, rule, child, asserted)
    && ListsExempt(work.permissions, rule, asserted)
    && ListsAsked(work.questions + HalfAnswered(work.obligations), rule, child, asserted)
    && work.absences == (if rule.applies then [] else [rule])
  }

  lemma OpenWhenListed(obligations: seq<Obligation>, rule: Rule, child: Option<bool>, asserted: set<string>, v: Verdict)
    requires OnTopic(rule) && ListsOwed(obligations, rule, child, asserted)
    ensures (exists o :: o in obligations && o.verdict == v && o.unevaluated != []) <==>
            v in {REQUIRE_CONSENT, REQUIRE_OPT_OUT} && Owes(rule, child, v) && SomeOpen(rule, v, asserted)
  {
    if o :| o in obligations && o.verdict == v && o.unevaluated != [] {
      assert o.unevaluated[0] in o.unevaluated;
      assert Open(rule, v, asserted, o.unevaluated[0]);
      assert SomeObligation(obligations, rule, v);
    }
    if v in {REQUIRE_CONSENT, REQUIRE_OPT_OUT} && Owes(rule, child, v) && SomeOpen(rule, v, asserted) {
      assert SomeObligation(obligations, rule, v);
      var o :| o in obligations && o.citation == rule && o.verdict == v;
      var c :| Open(rule, v, asserted, c);
      assert c in o.unevaluated;
    }
  }

  lemma OnTopicReads(rule: Rule, child: Option<bool>, asserted: set<string>, work: Work)
    requires OnTopic(rule) && work == Contribution(rule, child, asserted)
    ensures ListsOwed(work.obligations, rule, child, asserted) && ListsExempt(work.permissions, rule, asserted) && work.absences == []
    ensures forall q :: q in work.questions <==>
              q.citation == Some(rule) && ((q.reason == DerivedAuthority && rule.derived) || AsksOutright(rule, child, asserted, q.reason))
  {
    ContributionIs(rule, child, asserted);
    BranchReads(rule, child, asserted);
  }

  lemma HalfAnsweredReads(obligations: seq<Obligation>, rule: Rule, child: Option<bool>, asserted: set<string>)
    requires OnTopic(rule) && ListsOwed(obligations, rule, child, asserted)
    ensures forall q :: q in HalfAnswered(obligations) <==>
              && q.citation == Some(rule) && q.reason == UnevaluatedConditions
              && (|| (Owes(rule, child, REQUIRE_CONSENT) && SomeOpen(rule, REQUIRE_CONSENT, asserted))
                  || (Owes(rule, child, REQUIRE_OPT_OUT) && SomeOpen(rule, REQUIRE_OPT_OUT, asserted)))
  {
    OpenWhenListed(obligations, rule, child, asserted, REQUIRE_CONSENT);
    OpenWhenListed(obligations, rule, child, asserted, REQUIRE_OPT_OUT);
    forall o | o in obligations && o.unevaluated != [] ensures o.verdict in {REQUIRE_CONSENT, REQUIRE_OPT_OUT} {
      OpenWhenListed(obligations, rule, child, asserted, o.verdict);
    }
    forall q ensures q in HalfAnswered(obligations) <==>
      q.reason == UnevaluatedConditions && exists o :: o in obligations && o.unevaluated != [] && q.citation == Some(o.citation)
    {
      HalfAnsweredMember(obligations, q);
    }
  }

  lemma OffTopicReads(rule: Rule, child: Option<bool>, asserted: set<string>)
    requires !OnTopic(rule)
    ensures Reads(Contribution(rule, child, asserted), rule, child, asserted)
  {
    ContributionIs(rule, child, asserted);
  }

  lemma ContributionReads(rule: Rule, child: Option<bool>, asserted: set<string>)
    ensures Reads(Contribution(rule, child, asserted), rule, child, asserted)
  {
    if OnTopic(rule) {
      var work := Contribution(rule, child, asserted);
      OnTopicReads(rule, child, asserted, work);
      HalfAnsweredReads(work.obligations, rule, child, asserted);
      AskedReads(work.questions, HalfAnswered(work.obligations), rule, child, asserted);
    } else {
      OffTopicReads(rule, child, asserted);
    }
  }

  lemma AskedReads(outright: seq<Question>, half: seq<Question>, rule: Rule, child: Option<bool>, asserted: set<string>)
    requires OnTopic(rule)
    requires forall q :: q in outright <==>
               q.citation == Some(rule) && ((q.reason == DerivedAuthority && rule.derived) || AsksOutright(rule, child, asserted, q.reason))
    requires forall q :: q in half <==>
               && q.citation == Some(rule) && q.reason == UnevaluatedConditions
               && (|| (Owes(rule, child, REQUIRE_CONSENT) && SomeOpen(rule, REQUIRE_CONSENT, asserted))
                   || (Owes(rule, child, REQUIRE_OPT_OUT) && SomeOpen(rule, REQUIRE_OPT_OUT, asserted)))
    ensures ListsAsked(outright + half, rule, child, asserted)
  {
    forall q ensures q in outright + half <==> q in outright || q in half {
    }
  }

  // ---- All rules ------------------------------------------------------------

  function AllAsked(work: Work): seq<Question> {
    work.questions + HalfAnswered(work.obligations)
  }

  /** A list of everything is a list of what each rule adds. */
  ghost predicate Gathers(work: Work, rules: seq<Rule>, child: Option<bool>, asserted: set<string>) {
    && (forall o :: o in work.obligations <==> exists r :: r in rules && o in Contribution(r, child, asserted).obligations)
    && (forall p :: p in work.permissions <==> exists r :: r in rules && p in Contribution(r, child, asserted).permissions)
    && (forall q :: q in AllAsked(work) <==> exists r :: r in rules && q in AllAsked(Contribution(r, child, asserted)))
    && (forall a :: a in work.absences <==> exists r :: r in rules && a in Contribution(r, child, asserted).absences)
  }

  lemma AskedOfBoth(a: Work, b: Work)
    ensures forall q :: q in AllAsked(Plus(a, b)) <==> q in AllAsked(a) || q in AllAsked(b)
  {
    HalfAnsweredAppend(a.obligations, b.obligations);
  }

  lemma GathersOneMore(work: Work, rest: seq<Rule>, last: Rule, rules: seq<Rule>, child: Option<bool>, asserted: set<string>)
    requires Gathers(work, rest, child, asserted) && forall r :: r in rules <==> r in rest || r == last
    ensures Gathers(Plus(work, Contribution(last, child, asserted)), rules, child, asserted)
  {
    var more := Contribution(last, child, asserted);
    var all := Plus(work, more);
    AskedOfBoth(work, more);
    forall o ensures o in all.obligations <==> exists r :: r in rules && o in Contribution(r, child, asserted).obligations {
      assert o in all.obligations <==> o in work.obligations || o in more.obligations;
    }
    forall p ensures p in all.permissions <==> exists r :: r in rules && p in Contribution(r, child, asserted).permissions {
      assert p in all.permissions <==> p in work.permissions || p in more.permissions;
    }
    forall q ensures q in AllAsked(all) <==> exists r :: r in rules && q in AllAsked(Contribution(r, child, asserted)) {
      assert q in AllAsked(all) <==> q in AllAsked(work) || q in AllAsked(more);
    }
    forall a ensures a in all.absences <==> exists r :: r in rules && a in Contribution(r, child, asserted).absences {
      assert a in all.absences <==> a in work.absences || a in more.absences;
    }
  }

  lemma {:induction false} ContributionsGather(rules: seq<Rule>, child: Option<bool>, asserted: set<string>)
    ensures Gathers(Contributions(rules, child, asserted), rules, child, asserted)
  {
    if rules != [] {
      var rest, last := rules[..|rules| - 1], rules[|rules| - 1];
      ContributionsGather(rest, child, asserted);
      LastIsLast(rules);
      GathersOneMore(Contributions(rest, child, asserted), rest, last, rules, child, asserted);
    } else {
      NothingGathers(child, asserted);
    }
  }

  lemma LastIsLast(rules: seq<Rule>)
    requires rules != []
    ensures forall r :: r in rules <==> r in rules[..|rules| - 1] || r == rules[|rules| - 1]
  {
    assert rules == rules[..|rules| - 1] + [rules[|rules| - 1]];
  }

  lemma NothingGathers(child: Option<bool>, asserted: set<string>)
    ensures Gathers(NOTHING, [], child, asserted)
  {
  }

  // ---- The decision ---------------------------------------------------------

  /** The rule reaches the context: it is in the set, and every dimension it is limited in meets what is asked. */
  predicate Reaches(context: Context, rules: seq<Rule>, r: Rule) {
    && r in rules
    && (exists j :: j in r.regions && j in context.jurisdictions)
    && (r.actors == [] || exists a :: a in r.actors && a in context.actors)
    && (r.derived ==> context.includeDerivedModels)
    && (r.effectiveFrom.At? ==> r.effectiveFrom.instant <= context.asOf)
    && (r.effectiveTo.At? ==> context.asOf <= r.effectiveTo.instant)
    && (context.purpose.Some? && r.purposes != [] ==> context.purpose.value in r.purposes)
    && (r.dataCategories == [] || context.dataCategories.None? || context.dataCategories.value == []
        || exists c :: c in r.dataCategories && c in context.dataCategories.value)
    && (r.contexts == [] || context.processingContexts.None? || context.processingContexts.value == []
        || exists c :: c in r.contexts && c in context.processingContexts.value)
  }

  /** Selection lets through exactly the rules that reach the context in every dimension. */
  lemma ReachedIffReaches(context: Context, rules: seq<Rule>, r: Rule)
    ensures Reached(context, rules, r) <==> Reaches(context, rules, r)
    ensures r in Selected(context, rules) <==> Reaches(context, rules, r)
  {
    SelectedMember(context, rules, r);
  }

  predicate ReachesButFor(context: Context, r: Rule, reason: Exclusion) {
    match reason
    case Region => !(exists j :: j in r.regions && j in context.jurisdictions)
    case Actor => r.actors != [] && !(exists a :: a in r.actors && a in context.actors)
    case DerivedModel => r.derived && !context.includeDerivedModels
    case NotYetEffective => r.effectiveFrom.At? && context.asOf < r.effectiveFrom.instant
    case NoLongerEffective => r.effectiveTo.At? && context.asOf > r.effectiveTo.instant
    case Purpose => context.purpose.Some? && r.purposes != [] && context.purpose.value !in r.purposes
    case DataCategory =>
      r.dataCategories != [] && context.dataCategories.Some? && context.dataCategories.value != []
      && !(exists c :: c in r.dataCategories && c in context.dataCategories.value)
    case ProcessingContext =>
      r.contexts != [] && context.processingContexts.Some? && context.processingContexts.value != []
      && !(exists c :: c in r.contexts && c in context.processingContexts.value)
  }

  function FilterOrder(reason: Exclusion): nat {
    match reason
    case Region => 0 case Actor => 1 case DerivedModel => 2 case NotYetEffective => 3 case NoLongerEffective => 4
    case Purpose => 5 case DataCategory => 6 case ProcessingContext => 7
  }

  lemma FilterOrderInjective(a: Exclusion, b: Exclusion)
    requires FilterOrder(a) == FilterOrder(b)
    ensures a == b
  {
  }

  lemma FirstMiss(context: Context, r: Rule, e: Exclusion)
    ensures ReachesButFor(context, r, e) ==>
              Excluded(context, r).Some? && FilterOrder(Excluded(context, r).value) <= FilterOrder(e)
    ensures Excluded(context, r) == Some(e) ==> ReachesButFor(context, r, e)
  {
    assert Meets(r.regions, context.jurisdictions) <==> exists j :: j in r.regions && j in context.jurisdictions;
    assert Meets(r.actors, context.actors) <==> exists a :: a in r.actors && a in context.actors;
  }

  /** The reason recorded for a rule left out is the first dimension in which it misses the context. */
  lemma ExcludedForTheFirstMiss(context: Context, r: Rule, reason: Exclusion)
    ensures Excluded(context, r) == Some(reason) <==>
            ReachesButFor(context, r, reason)
            && forall e :: ReachesButFor(context, r, e) ==> FilterOrder(reason) <= FilterOrder(e)
  {
    forall e
      ensures ReachesButFor(context, r, e) ==> Excluded(context, r).Some? && FilterOrder(Excluded(context, r).value) <= FilterOrder(e)
      ensures Excluded(context, r) == Some(e) ==> ReachesButFor(context, r, e)
    {
      FirstMiss(context, r, e);
    }
    if Excluded(context, r).Some? && ReachesButFor(context, r, reason)
       && FilterOrder(reason) == FilterOrder(Excluded(context, r).value) {
      FilterOrderInjective(reason, Excluded(context, r).value);
    }
  }

  // ---- Decisions ------------------------------------------------------------

  /** Every obligation, permission and question about a rule in the decision, exactly where the rule's fields call for it. */
  ghost predicate SaysWhatRulesSay(context: Context, rules: seq<Rule>, d: Decision) {
    var child, asserted := context.subjectIsChild, Asserted(context);
    && (forall r, v :: SomeObligation(d.obligations, r, v) <==> Reaches(context, rules, r) && Owes(r, child, v))
    && (forall o, c :: o in d.obligations ==> (c in o.unevaluated <==> Open(o.citation, o.verdict, asserted, c)))
    && (forall p :: p in d.permissions <==> Reaches(context, rules, p.citation) && Exempts(p.citation, asserted)
                                            && p.satisfiedByAssertion == p.citation.consent.value.conditions)
    && (forall r, reason :: Question(reason, Some(r)) in d.openQuestions <==>
                              Reaches(context, rules, r) && Wonders(r, child, asserted, reason))
  }

  lemma FindingsGather(context: Context, rules: seq<Rule>)
    ensures Gathers(Findings(context, rules), Selected(context, rules), context.subjectIsChild, Asserted(context))
    ensures forall r :: r in Selected(context, rules) <==> Reaches(context, rules, r)
  {
    ContributionsGather(Selected(context, rules), context.subjectIsChild, Asserted(context));
    forall r ensures r in Selected(context, rules) <==> Reaches(context, rules, r) {
      ReachedIffReaches(context, rules, r);
    }
  }

  ghost predicate FindingsSay(context: Context, rules: seq<Rule>, work: Work) {
    var child, asserted := context.subjectIsChild, Asserted(context);
    && (forall r, v :: SomeObligation(work.obligations, r, v) <==> Reaches(context, rules, r) && Owes(r, child, v))
    && (forall o, c :: o in work.obligations ==> (c in o.unevaluated <==> Open(o.citation, o.verdict, asserted, c)))
    && (forall p :: p in work.permissions <==> Reaches(context, rules, p.citation) && Exempts(p.citation, asserted)
                                               && p.satisfiedByAssertion == p.citation.consent.value.conditions)
    && (forall q :: q in AllAsked(work) <==> q.citation.Some? && Reaches(context, rules, q.citation.value)
                                             && Wonders(q.citation.value, child, asserted, q.reason))
  }

  lemma ObligationsSay(context: Context, rules: seq<Rule>, r: Rule, v: Verdict)
    ensures SomeObligation(Findings(context, rules).obligations, r, v)
            <==> Reaches(context, rules, r) && Owes(r, context.subjectIsChild, v)
  {
    var child, asserted, work := context.subjectIsChild, Asserted(context), Findings(context, rules);
    FindingsGather(context, rules);
    ContributionReads(r, child, asserted);
    if SomeObligation(work.obligations, r, v) {
      var o :| o in work.obligations && o.citation == r && o.verdict == v;
      var s :| s in Selected(context, rules) && o in Contribution(s, child, asserted).obligations;
      ContributionReads(s, child, asserted);
      assert SomeObligation(Contribution(r, child, asserted).obligations, r, v);
    }
    if Reaches(context, rules, r) && Owes(r, child, v) {
      assert SomeObligation(Contribution(r, child, asserted).obligations, r, v);
      var o :| o in Contribution(r, child, asserted).obligations && o.citation == r && o.verdict == v;
      assert o in work.obligations;
    }
  }

  lemma OpenSay(context: Context, rules: seq<Rule>, o: Obligation, c: string)
    requires o in Findings(context, rules).obligations
    ensures c in o.unevaluated <==> Open(o.citation, o.verdict, Asserted(context), c)
  {
    var child, asserted := context.subjectIsChild, Asserted(context);
    FindingsGather(context, rules);
    var s :| s in Selected(context, rules) && o in Contribution(s, child, asserted).obligations;
    ContributionReads(s, child, asserted);
  }

  lemma PermissionsSay(context: Context, rules: seq<Rule>, p: Permission)
    ensures p in Findings(context, rules).permissions
            <==> Reaches(context, rules, p.citation) && Exempts(p.citation, Asserted(context))
                 && p.satisfiedByAssertion == p.citation.consent.value.conditions
  {
    var child, asserted := context.subjectIsChild, Asserted(context);
    FindingsGather(context, rules);
    PermissionOfRule(p.citation, child, asserted, p);
    if p in Findings(context, rules).permissions {
      var s :| s in Selected(context, rules) && p in Contribution(s, child, asserted).permissions;
      PermissionOfRule(s, child, asserted, p);
    }
  }

  lemma PermissionOfRule(rule: Rule, child: Option<bool>, asserted: set<string>, p: Permission)
    ensures p in Contribution(rule, child, asserted).permissions
            <==> p.citation == rule && Exempts(rule, asserted) && p.satisfiedByAssertion == rule.consent.value.conditions
  {
    ContributionReads(rule, child, asserted);
  }

  lemma AskedOfRule(rule: Rule, child: Option<bool>, asserted: set<string>, q: Question)
    ensures q in AllAsked(Contribution(rule, child, asserted))
            <==> q.citation == Some(rule) && Wonders(rule, child, asserted, q.reason)
  {
    ContributionReads(rule, child, asserted);
  }

  lemma QuestionsSay(context: Context, rules: seq<Rule>, q: Question)
    ensures q in AllAsked(Findings(context, rules))
            <==> q.citation.Some? && Reaches(context, rules, q.citation.value)
                 && Wonders(q.citation.value, context.subjectIsChild, Asserted(context), q.reason)
  {
    var child, asserted := context.subjectIsChild, Asserted(context);
    FindingsGather(context, rules);
    forall s ensures q in AllAsked(Contribution(s, child, asserted))
                     <==> q.citation == Some(s) && Wonders(s, child, asserted, q.reason)
    {
      AskedOfRule(s, child, asserted, q);
    }
  }

  lemma FindingsRead(context: Context, rules: seq<Rule>)
    ensures FindingsSay(context, rules, Findings(context, rules))
  {
    forall r, v
      ensures SomeObligation(Findings(context, rules).obligations, r, v)
              <==> Reaches(context, rules, r) && Owes(r, context.subjectIsChild, v)
    {
      ObligationsSay(context, rules, r, v);
    }
    forall o, c | o in Findings(context, rules).obligations
      ensures c in o.unevaluated <==> Open(o.citation, o.verdict, Asserted(context), c)
    {
      OpenSay(context, rules, o, c);
    }
    forall p
      ensures p in Findings(context, rules).permissions
              <==> Reaches(context, rules, p.citation) && Exempts(p.citation, Asserted(context))
                   && p.satisfiedByAssertion == p.citation.consent.value.conditions
    {
      PermissionsSay(context, rules, p);
    }
    forall q
      ensures q in AllAsked(Findings(context, rules))
              <==> q.citation.Some? && Reaches(context, rules, q.citation.value)
                   && Wonders(q.citation.value, context.subjectIsChild, Asserted(context), q.reason)
    {
      QuestionsSay(context, rules, q);
    }
  }

  /** Why a decision that rests on no rule is open; no citation, then. */
  predicate Uncited(context: Context, rules: seq<Rule>, reason: Reason) {
    match reason
    case NoJurisdictionGiven => context.jurisdictions == []
    case StatesAnAbsence =>
      NothingFound(context, rules) && SomeReach(context, rules) && forall r :: r in rules && Reaches(context, rules, r) ==> !r.applies
    case NoRequirementsForContext =>
      context.jurisdictions != [] && NothingFound(context, rules)
      && (SomeReach(context, rules) ==> exists r :: r in rules && Reaches(context, rules, r) && r.applies)
    case _ => false
  }

  predicate SomeReach(context: Context, rules: seq<Rule>) {
    exists r :: r in rules && Reaches(context, rules, r)
  }

  predicate OwesSomething(rule: Rule, child: Option<bool>) {
    Owes(rule, child, REQUIRE_CONSENT) || Owes(rule, child, REQUIRE_OPT_OUT)
    || Owes(rule, child, REQUIRE_USER_ACTION) || Owes(rule, child, REQUIRE_NOTICE)
  }

  predicate WondersSomething(rule: Rule, child: Option<bool>, asserted: set<string>) {
    || Wonders(rule, child, asserted, UnclassifiedTopic) || Wonders(rule, child, asserted, DerivedAuthority)
    || Wonders(rule, child, asserted, ChildrenReason) || Wonders(rule, child, asserted, ConditionalConsent)
    || Wonders(rule, child, asserted, ConditionalExemption) || Wonders(rule, child, asserted, UnevaluatedConditions)
  }

  predicate SomeOwe(context: Context, rules: seq<Rule>, v: Verdict) {
    exists r :: r in rules && Reaches(context, rules, r) && Owes(r, context.subjectIsChild, v)
  }

  predicate SomeWonder(context: Context, rules: seq<Rule>) {
    exists r :: r in rules && Reaches(context, rules, r) && WondersSomething(r, context.subjectIsChild, Asserted(context))
  }

  predicate SomeExempt(context: Context, rules: seq<Rule>) {
    exists r :: r in rules && Reaches(context, rules, r) && Exempts(r, Asserted(context))
  }

  /** No rule that reaches the context owes, exempts or asks anything. */
  predicate NothingFound(context: Context, rules: seq<Rule>) {
    !SomeWonder(context, rules) && !SomeExempt(context, rules)
    && forall r :: r in rules && Reaches(context, rules, r) ==> !OwesSomething(r, context.subjectIsChild)
  }

  /** The verdict by what rules owe, exempt and ask: any question first, then the most severe of what is owed. */
  function VerdictByReading(context: Context, rules: seq<Rule>): Verdict {
    if SomeWonder(context, rules) then REVIEW
    else if SomeOwe(context, rules, REQUIRE_CONSENT) then REQUIRE_CONSENT
    else if SomeOwe(context, rules, REQUIRE_OPT_OUT) then REQUIRE_OPT_OUT
    else if SomeOwe(context, rules, REQUIRE_USER_ACTION) then REQUIRE_USER_ACTION
    else if SomeOwe(context, rules, REQUIRE_NOTICE) then REQUIRE_NOTICE
    else if SomeExempt(context, rules) then ALLOW
    else REVIEW
  }

  lemma OwesOneOfFour(rule: Rule, child: Option<bool>, v: Verdict)
    requires Owes(rule, child, v)
    ensures v in {REQUIRE_CONSENT, REQUIRE_OPT_OUT, REQUIRE_USER_ACTION, REQUIRE_NOTICE} && OwesSomething(rule, child)
  {
  }

  lemma WondersOneOfSix(rule: Rule, child: Option<bool>, asserted: set<string>, reason: Reason)
    requires Wonders(rule, child, asserted, reason)
    ensures WondersSomething(rule, child, asserted)
  {
  }

  lemma AskedIffWonder(context: Context, rules: seq<Rule>)
    ensures AllAsked(Findings(context, rules)) != [] <==> SomeWonder(context, rules)
  {
    var work, child, asserted := Findings(context, rules), context.subjectIsChild, Asserted(context);
    FindingsRead(context, rules);
    if AllAsked(work) != [] {
      var q := AllAsked(work)[0];
      assert q in AllAsked(work);
      WondersOneOfSix(q.citation.value, child, asserted, q.reason);
    }
    if r :| r in rules && Reaches(context, rules, r) && WondersSomething(r, child, asserted) {
      var reason :| Wonders(r, child, asserted, reason);
      assert Question(reason, Some(r)) in AllAsked(work);
    }
  }

  lemma PermittedIffExempt(context: Context, rules: seq<Rule>)
    ensures Findings(context, rules).permissions != [] <==> SomeExempt(context, rules)
  {
    var work := Findings(context, rules);
    FindingsRead(context, rules);
    if work.permissions != [] {
      assert work.permissions[0] in work.permissions;
    }
    if r :| r in rules && Reaches(context, rules, r) && Exempts(r, Asserted(context)) {
      assert Permission(r, r.consent.value.conditions) in work.permissions;
    }
  }

  lemma ObligedIffOwed(context: Context, rules: seq<Rule>, v: Verdict)
    ensures (exists o :: o in Findings(context, rules).obligations && o.verdict == v) <==> SomeOwe(context, rules, v)
  {
    var work := Findings(context, rules);
    FindingsRead(context, rules);
    if o :| o in work.obligations && o.verdict == v {
      assert SomeObligation(work.obligations, o.citation, v);
    }
    if r :| r in rules && Reaches(context, rules, r) && Owes(r, context.subjectIsChild, v) {
      assert SomeObligation(work.obligations, r, v);
    }
  }

  /** The severest of a list, by which verdicts are in it. */
  lemma LoweredByMembers(obligations: seq<Obligation>)
    requires Moderate(obligations)
    ensures var has := (v: Verdict) => exists o :: o in obligations && o.verdict == v;
            Lowered(obligations) == if has(REQUIRE_CONSENT) then REQUIRE_CONSENT else if has(REQUIRE_OPT_OUT) then REQUIRE_OPT_OUT
                                    else if has(REQUIRE_USER_ACTION) then REQUIRE_USER_ACTION
                                    else if has(REQUIRE_NOTICE) then REQUIRE_NOTICE else ALLOW
  {
    LoweredIsLeast(obligations);
    ModerateLowered(obligations);
    if obligations != [] {
      assert obligations[0] in obligations;
    }
  }

  /** The outcome of every decision, read off the fields of the rules that reach the context. */
  lemma OutcomeReads(context: Context, rules: seq<Rule>)
    ensures Decide(context, rules).outcome == VerdictByReading(context, rules)
  {
    var work := Findings(context, rules);
    DecideConcludes(context, rules);
    AskedIffWonder(context, rules);
    PermittedIffExempt(context, rules);
    ObligedIffOwed(context, rules, REQUIRE_CONSENT);
    ObligedIffOwed(context, rules, REQUIRE_OPT_OUT);
    ObligedIffOwed(context, rules, REQUIRE_USER_ACTION);
    ObligedIffOwed(context, rules, REQUIRE_NOTICE);
    ContributionsModerate(Selected(context, rules), context.subjectIsChild, Asserted(context));
    ModerateLowered(work.obligations);
    LoweredByMembers(work.obligations);
  }

  lemma {:induction false} AbsencesCount(rules: seq<Rule>, child: Option<bool>, asserted: set<string>)
    ensures |Contributions(rules, child, asserted).absences| <= |rules|
    ensures |Contributions(rules, child, asserted).absences| == |rules| <==> forall r :: r in rules ==> !r.applies
  {
    if rules != [] {
      var rest, last := rules[..|rules| - 1], rules[|rules| - 1];
      AbsencesCount(rest, child, asserted);
      AbsenceOf(last, child, asserted);
      assert rules == rest + [last];
      assert forall r :: r in rules <==> r in rest || r == last;
    }
  }

  lemma AbsenceOf(rule: Rule, child: Option<bool>, asserted: set<string>)
    ensures |Contribution(rule, child, asserted).absences| == if rule.applies then 0 else 1
  {
    ContributionReads(rule, child, asserted);
  }

  lemma NothingFoundIff(context: Context, rules: seq<Rule>)
    ensures var work := Findings(context, rules);
            AllAsked(work) == [] && work.obligations == [] && work.permissions == [] <==> NothingFound(context, rules)
  {
    var work, child := Findings(context, rules), context.subjectIsChild;
    AskedIffWonder(context, rules);
    PermittedIffExempt(context, rules);
    FindingsRead(context, rules);
    if work.obligations != [] {
      var o := work.obligations[0];
      assert SomeObligation(work.obligations, o.citation, o.verdict);
      OwesOneOfFour(o.citation, child, o.verdict);
    }
    if r :| r in rules && Reaches(context, rules, r) && OwesSomething(r, child) {
      var v :| Owes(r, child, v);
      assert SomeObligation(work.obligations, r, v);
    }
  }

  lemma NothingReaches(context: Context, rules: seq<Rule>)
    requires context.jurisdictions == [] || Selected(context, rules) == []
    ensures !SomeReach(context, rules) && NothingFound(context, rules)
    ensures forall r :: !Reaches(context, rules, r)
  {
    forall r ensures !Reaches(context, rules, r) {
      ReachedIffReaches(context, rules, r);
    }
  }

  /** The question a decision adds when nothing was found. */
  function Unfounded(context: Context, rules: seq<Rule>): seq<Question> {
    if NothingFound(context, rules)
    then [Question(if forall r :: r in rules && Reaches(context, rules, r) ==> !r.applies then StatesAnAbsence else NoRequirementsForContext, None)]
    else []
  }

  lemma DecideOnIs(context: Context, rules: seq<Rule>)
    requires context.jurisdictions != [] && Selected(context, rules) != []
    ensures var d := Decide(context, rules);
            && d.openQuestions == AllAsked(Findings(context, rules)) + Unfounded(context, rules)
            && d.permissions == Findings(context, rules).permissions
            && forall o :: o in d.obligations <==> o in Findings(context, rules).obligations
  {
    var work, selected := Findings(context, rules), Selected(context, rules);
    NothingFoundIff(context, rules);
    AbsencesCount(selected, context.subjectIsChild, Asserted(context));
    FindingsGather(context, rules);
    ContributionsModerate(selected, context.subjectIsChild, Asserted(context));
    ModerateLowered(work.obligations);
    BySeverityOrders();
    SortSorts(work.obligations, BySeverity);
  }

  lemma UnresolvedReads(context: Context, rules: seq<Rule>)
    requires context.jurisdictions == [] || Selected(context, rules) == []
    ensures SaysWhatRulesSay(context, rules, Decide(context, rules))
    ensures forall reason :: Question(reason, None) in Decide(context, rules).openQuestions <==> Uncited(context, rules, reason)
  {
    NothingReaches(context, rules);
  }

  lemma SaysAsFound(context: Context, rules: seq<Rule>, work: Work, d: Decision)
    requires FindingsSay(context, rules, work)
    requires d.permissions == work.permissions && forall o :: o in d.obligations <==> o in work.obligations
    requires forall q: Question :: q.citation.Some? ==> (q in d.openQuestions <==> q in AllAsked(work))
    ensures SaysWhatRulesSay(context, rules, d)
  {
    forall r, v ensures SomeObligation(d.obligations, r, v) <==> SomeObligation(work.obligations, r, v) {
    }
  }

  lemma CitedAreAsked(context: Context, rules: seq<Rule>, q: Question)
    requires context.jurisdictions != [] && Selected(context, rules) != [] && q.citation.Some?
    ensures q in Decide(context, rules).openQuestions <==> q in AllAsked(Findings(context, rules))
  {
    DecideOnIs(context, rules);
  }

  lemma ResolvedReads(context: Context, rules: seq<Rule>, d: Decision)
    requires context.jurisdictions != [] && Selected(context, rules) != [] && d == Decide(context, rules)
    ensures SaysWhatRulesSay(context, rules, d)
  {
    FindingsRead(context, rules);
    DecideOnIs(context, rules);
    forall q: Question | q.citation.Some? ensures q in d.openQuestions <==> q in AllAsked(Findings(context, rules)) {
      CitedAreAsked(context, rules, q);
    }
    SaysAsFound(context, rules, Findings(context, rules), d);
  }

  lemma ResolvedUncited(context: Context, rules: seq<Rule>, reason: Reason)
    requires context.jurisdictions != [] && Selected(context, rules) != []
    ensures Question(reason, None) in Decide(context, rules).openQuestions <==> Uncited(context, rules, reason)
  {
    QuestionsSay(context, rules, Question(reason, None));
    DecideOnIs(context, rules);
    ReachedIffReaches(context, rules, Selected(context, rules)[0]);
    assert SomeReach(context, rules);
    assert Question(reason, None) in Decide(context, rules).openQuestions <==> Question(reason, None) in Unfounded(context, rules);
  }

  /** Every decision says what the rules that reach the context say, no more and no less. */
  lemma DecisionReads(context: Context, rules: seq<Rule>)
    ensures SaysWhatRulesSay(context, rules, Decide(context, rules))
    ensures forall reason :: Question(reason, None) in Decide(context, rules).openQuestions <==> Uncited(context, rules, reason)
  {
    if context.jurisdictions == [] || Selected(context, rules) == [] {
      UnresolvedReads(context, rules);
    } else {
      ResolvedReads(context, rules, Decide(context, rules));
      forall reason ensures Question(reason, None) in Decide(context, rules).openQuestions <==> Uncited(context, rules, reason) {
        ResolvedUncited(context, rules, reason);
      }
    }
  }

  /** The engine assumes no adulthood: unless the subject is stated to be no child, a children's rule leaves the decision open. */
  lemma AdulthoodIsNotAssumed(context: Context, rules: seq<Rule>, rule: Rule)
    requires Reaches(context, rules, rule) && rule.applies && rule.topic.Some?
    requires rule.children.Some? && rule.children.value.applies && context.subjectIsChild != Some(false)
    ensures Decide(context, rules).outcome == REVIEW
    ensures Question(ChildrenReason, Some(rule)) in Decide(context, rules).openQuestions
  {
    DecisionReads(context, rules);
    OutcomeReads(context, rules);
    assert Wonders(rule, context.subjectIsChild, Asserted(context), ChildrenReason);
  }

  // ---- What is listed in which order ----------------------------------------

  lemma SeveritiesInOrder()
    ensures Severity(BLOCK) < Severity(REVIEW) < Severity(REQUIRE_CONSENT) < Severity(REQUIRE_OPT_OUT)
    ensures Severity(REQUIRE_OPT_OUT) < Severity(REQUIRE_USER_ACTION) < Severity(REQUIRE_NOTICE) < Severity(ALLOW)
  {
  }

  predicate Ascending(items: seq<string>) {
    forall i, j :: 0 <= i < j < |items| ==> Less(items[i], items[j])
  }

  lemma {:induction false} DistinctOnce(items: seq<string>)
    ensures forall x :: x in Distinct(items) <==> x in items
    ensures forall i, j :: 0 <= i < j < |Distinct(items)| ==> Distinct(items)[i] != Distinct(items)[j]
  {
    if items != [] {
      DistinctOnce(items[..|items| - 1]);
      assert items == items[..|items| - 1] + [items[|items| - 1]];
    }
  }

  lemma SortedOnce(items: seq<string>)
    ensures Ascending(Sort(Distinct(items), Leq)) && forall x :: x in Sort(Distinct(items), Leq) <==> x in items
  {
    LeqOrders();
    DistinctOnce(items);
    SortSorts(Distinct(items), Leq);
    DistinctImages(Distinct(items), Sort(Distinct(items), Leq), (x: string) => x);
  }

  /** As many times as the rule stands in the set, where it reaches; not at all where it does not. */
  lemma SelectedCounts(context: Context, rules: seq<Rule>, r: Rule)
    ensures multiset(Selected(context, rules))[r] == if Reaches(context, rules, r) then multiset(rules)[r] else 0
  {
    var keep := (x: Rule) => Excluded(context, x).None?;
    ByIdOrders();
    SortSorts(Reaching(context, rules), ById);
    FilterMultiset(rules, keep);
    ReachedIffReaches(context, rules, r);
  }

  predicate ListedBefore(o: Obligation, p: Obligation) {
    Severity(o.verdict) < Severity(p.verdict) || (o.verdict == p.verdict && Leq(o.citation.id, p.citation.id))
  }

  /** Rules by id, obligations by severity and then by id, regimes and asserted conditions once each in order. */
  lemma DecisionIsOrdered(context: Context, rules: seq<Rule>)
    ensures var d := Decide(context, rules);
            && Ascending(d.assertedConditions) && (forall c :: c in d.assertedConditions <==> c in context.assertedConditions)
            && Ascending(d.regimes)
            && (forall g :: g in d.regimes <==> exists r :: r in d.considered && r.regime == g)
            && (forall i, j :: 0 <= i < j < |d.considered| ==> Leq(d.considered[i].id, d.considered[j].id))
            && (forall i, j :: 0 <= i < j < |d.obligations| ==> ListedBefore(d.obligations[i], d.obligations[j]))
            && (context.jurisdictions != [] ==>
                  forall r :: multiset(d.considered)[r] == if Reaches(context, rules, r) then multiset(rules)[r] else 0)
  {
    var selected := Selected(context, rules);
    var names := Map(selected, (r: Rule) => r.regime);
    SortedOnce(context.assertedConditions);
    SortedOnce(names);
    ByIdOrders();
    SortSorts(Reaching(context, rules), ById);
    BySeverityOrders();
    SortSorts(Findings(context, rules).obligations, BySeverity);
    forall r ensures multiset(selected)[r] == if Reaches(context, rules, r) then multiset(rules)[r] else 0 {
      SelectedCounts(context, rules, r);
    }
    NamesOf(selected, names);
  }

  lemma NamesOf(selected: seq<Rule>, names: seq<string>)
    requires names == Map(selected, (r: Rule) => r.regime)
    ensures forall g :: g in names <==> exists r :: r in selected && r.regime == g
  {
    forall g ensures g in names <==> exists r :: r in selected && r.regime == g {
      if g in names {
        var i := IndexOf(names, g);
        assert selected[i] in selected;
      }
      if r :| r in selected && r.regime == g {
        var i := IndexOf(selected, r);
        assert names[i] == g;
      }
    }
  }

  /** The reasons recorded: an id is in the map exactly when a rule under it is left out, with the last one's first miss. */
  lemma {:induction false} ExcludedMapIs(context: Context, rules: seq<Rule>, id: string)
    ensures id in ExcludedMap(context, rules) <==> exists r :: r in rules && r.id == id && Excluded(context, r).Some?
    ensures forall i: nat :: i < |rules| && rules[i].id == id && Excluded(context, rules[i]).Some?
              && (forall j :: i < j < |rules| && rules[j].id == id ==> Excluded(context, rules[j]).None?)
              ==> id in ExcludedMap(context, rules) && Some(ExcludedMap(context, rules)[id]) == Excluded(context, rules[i])
  {
    if rules != [] {
      ExcludedMapIs(context, rules[..|rules| - 1], id);
      assert rules == rules[..|rules| - 1] + [rules[|rules| - 1]];
    }
  }
}
