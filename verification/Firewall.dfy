/** The consent firewall, and the guard on outbound requests. */
module Firewall {
  // One decision for a host, classified, and the server-side guard that turns it into a request to
  // send or nothing. Redaction is an oracle; URL parsing has already been done.

  import opened Text
  import opened Sequences
  import opened EffectiveConsent
  import opened Hosts

  datatype Effect = Allowed | Blocked
  datatype UserState = NotApplicable | Undecided | IsGranted | DeniedOrWithdrawn

  datatype Core = Core(effect: Effect, state: UserState, rule: Option<Rule>, vendor: Option<string>, purpose: Option<string>)

  datatype Config = Config(enforcing: bool, rules: seq<Rule>, blockUnknown: bool)

  /** The purpose a gate names; an empty code names none. */
  function Purpose(rule: Rule): Option<string> {
    if rule.purpose.None? || rule.purpose.value == "" then None else rule.purpose
  }

  // ---- The core decision ----------------------------------------------------

  /** The gate names this purpose, and an empty code is no name. */
  predicate Names(rule: Rule, purpose: string) {
    rule.action == RequireConsent && rule.purpose == Some(purpose) && purpose != ""
  }

  predicate NamesOneOf(rule: Rule, purposes: set<string>) {
    exists p :: p in purposes && Names(rule, p)
  }

  /** `host` is absent when the destination is not an http(s) URL. */
  method Decide(host: Option<string>, config: Config, granted: set<string>, decided: set<string>) returns (d: Core)
    ensures d.rule == if host.Some? then FirstMatch(config.rules, host.value) else None
    ensures d.effect == Allowed <==> Passes(host, config, granted)
    ensures d.rule.None? ==> d.vendor.None? && d.purpose.None? && d.state == NotApplicable
    ensures d.rule.Some? ==> d.vendor == Some(d.rule.value.vendor)
    ensures d.rule.Some? && d.rule.value.action == RequireConsent ==>
              && d.purpose == Purpose(d.rule.value)
              && (d.state == IsGranted <==> d.purpose.Some? && d.purpose.value in granted)
              && (d.state == DeniedOrWithdrawn <==> d.purpose.Some? && d.purpose.value in decided && d.purpose.value !in granted)
              && d.state != NotApplicable
    ensures host.None? ==> d.effect == Allowed
    ensures host.Some? && d.rule.None? ==> (d.effect == Blocked <==> config.blockUnknown)
    ensures d.rule.Some? && d.rule.value.action != RequireConsent ==>
              && (d.effect == Allowed <==> d.rule.value.action == Allow)
              && d.purpose == d.rule.value.purpose && d.state == NotApplicable
    ensures d.rule.Some? && d.rule.value.action == RequireConsent ==>
              && (d.effect == Allowed <==> NamesOneOf(d.rule.value, granted))
              && (forall p :: d.purpose == Some(p) <==> Names(d.rule.value, p))
  {
    if host.None? {
      return Core(Allowed, NotApplicable, None, None, None);
    }
    var rule := Find(config.rules, host.value);
    if rule.None? {
      return Core(if config.blockUnknown then Blocked else Allowed, NotApplicable, None, None, None);
    }
    var r := rule.value;
    if r.action == Allow {
      return Core(Allowed, NotApplicable, rule, Some(r.vendor), r.purpose);
    }
    if r.action == Block {
      return Core(Blocked, NotApplicable, rule, Some(r.vendor), r.purpose);
    }
    if r.purpose.None? || r.purpose.value == "" {
      return Core(Blocked, Undecided, rule, Some(r.vendor), None);
    }
    var isGranted := r.purpose.value in granted;
    var state := if isGranted then IsGranted else if r.purpose.value in decided then DeniedOrWithdrawn else Undecided;
    d := Core(if isGranted then Allowed else Blocked, state, rule, Some(r.vendor), r.purpose);
  }

  method Find(rules: seq<Rule>, host: string) returns (rule: Option<Rule>)
    ensures rule == FirstMatch(rules, host)
  {
    assert rules[0..] == rules;
    for i := 0 to |rules|
      invariant FirstMatch(rules, host) == FirstMatch(rules[i..], host)
    {
      assert rules[i..][0] == rules[i] && rules[i..][1..] == rules[i + 1..];
      if HostMatches(host, rules[i].host) {
        return Some(rules[i]);
      }
    }
    rule := None;
  }

  /** What lets a request through: no host, no rule where unknown hosts pass, an allow, or a gate that is granted. */
  predicate Passes(host: Option<string>, config: Config, granted: set<string>) {
    if host.None? then true
    else match FirstMatch(config.rules, host.value)
      case None => !config.blockUnknown
      case Some(rule) =>
        match rule.action
        case Allow => true
        case Block => false
        case RequireConsent => Purpose(rule).Some? && Purpose(rule).value in granted
  }

  // ---- The classification ---------------------------------------------------

  datatype Class = ALLOW | BLOCK | REDACT | REQUIRE_CONSENT | REVIEW
  datatype Severity = Info | Low | Medium | High
  datatype Evidence = MatchedRule(host: string) | NoRule | ConsentState(purpose: string, readable: bool) | Configured(version: Option<string>)

  datatype Result = Result(class_: Class, effect: Effect, severity: Severity, rule: Option<Rule>,
                           evidence: seq<Evidence>, redactions: seq<string>, observedOnly: bool)

  datatype Context = Context(config: Config, granted: set<string>, decided: set<string>, policyVersion: Option<string>, principalKnown: bool)

  /**
   * `evaluateFirewall`: it never reverses the core decision except to block a gate nobody's consent can be
   * read for, and an unmatched host is never reported as allowed.
   */
  method EvaluateFirewall(host: Option<string>, context: Context, redactions: seq<string>) returns (r: Result)
    ensures r.rule == if host.Some? then FirstMatch(context.config.rules, host.value) else None
    ensures r.effect == Allowed <==> Passes(host, context.config, context.granted) && !(Gated(r) && !context.principalKnown)
    ensures r.class_ == REVIEW <==> host.Some? && r.rule.None? && r.effect == Allowed
    ensures r.class_ == REQUIRE_CONSENT <==> Gated(r) && r.effect == Blocked
    ensures r.class_ == BLOCK <==> !Gated(r) && r.effect == Blocked
    ensures r.class_ == REDACT <==> r.rule.Some? && r.effect == Allowed && redactions != []
    ensures r.effect == Allowed <==>
              || host.None?
              || (r.rule.None? && !context.config.blockUnknown)
              || (r.rule.Some? && r.rule.value.action == Allow)
              || (r.rule.Some? && context.principalKnown && NamesOneOf(r.rule.value, context.granted))
    ensures r.class_ == REQUIRE_CONSENT <==> r.rule.Some? && r.rule.value.action == RequireConsent && r.effect == Blocked
    ensures r.severity == High <==>
              && r.effect == Blocked
              && (r.class_ == BLOCK || (NamesOneOf(r.rule.value, context.decided) && !NamesOneOf(r.rule.value, context.granted)))
    ensures r.severity == Low <==> r.class_ == REVIEW
    ensures r.severity == Info <==> r.class_ in {ALLOW, REDACT}
    ensures MatchedRule(if r.rule.Some? then r.rule.value.host else "") in r.evidence <==> r.rule.Some?
    ensures NoRule in r.evidence <==> r.rule.None?
    ensures forall p, known :: ConsentState(p, known) in r.evidence <==>
              known == context.principalKnown && r.rule.Some? && r.rule.value.purpose == Some(p) && p != ""
    ensures |r.evidence| == if r.rule.Some? && r.rule.value.purpose.Some? && r.rule.value.purpose.value != "" then 3 else 2
    ensures r.severity == High ==> r.effect == Blocked
    ensures r.observedOnly == !context.config.enforcing && r.redactions == redactions
    ensures r.evidence != [] && r.evidence[|r.evidence| - 1] == Configured(context.policyVersion)
    ensures Gated(r) && Purpose(r.rule.value).Some? ==>
              ConsentState(Purpose(r.rule.value).value, context.principalKnown) in r.evidence
  {
    var core := Decide(host, context.config, context.granted, context.decided);
    var evidence: seq<Evidence> := [];
    if core.rule.Some? {
      evidence := evidence + [MatchedRule(core.rule.value.host)];
    } else {
      evidence := evidence + [NoRule];
    }
    if core.purpose.Some? && core.purpose.value != "" {
      evidence := evidence + [ConsentState(core.purpose.value, context.principalKnown)];
    }
    evidence := evidence + [Configured(context.policyVersion)];
    var observedOnly := !context.config.enforcing;
    if host.None? {
      return Result(ALLOW, core.effect, Info, core.rule, evidence, redactions, observedOnly);
    }
    var unreadable := !context.principalKnown && core.rule.Some? && core.rule.value.action == RequireConsent;
    if core.rule.Some? && core.rule.value.action == RequireConsent {
      if core.effect == Allowed && !unreadable {
        return Result(if |redactions| > 0 then REDACT else ALLOW, core.effect, Info, core.rule, evidence, redactions, observedOnly);
      }
      return Result(REQUIRE_CONSENT, Blocked, if core.state == DeniedOrWithdrawn then High else Medium,
                    core.rule, evidence, redactions, observedOnly);
    }
    if core.effect == Blocked {
      return Result(BLOCK, core.effect, High, core.rule, evidence, redactions, observedOnly);
    }
    if core.rule.None? {
      return Result(REVIEW, core.effect, Low, core.rule, evidence, redactions, observedOnly);
    }
    r := Result(if |redactions| > 0 then REDACT else ALLOW, core.effect, Info, core.rule, evidence, redactions, observedOnly);
  }

  predicate Gated(r: Result) {
    r.rule.Some? && r.rule.value.action == RequireConsent
  }

  // ---- The outbound guard ---------------------------------------------------

  datatype Request = Request(url: string, host: Option<string>, body: string, headers: string)

  /** What the redaction layer answers for this request and these rules. */
  datatype Redaction = NotAsked | Rejected | Walked(request: Request, ruleIds: seq<string>) | Refused(ruleIds: seq<string>)

  datatype Approved = Approved(version: string, recommendations: seq<Recommendation>)

  /** The visitor: none named, a name nobody has, or a principal with a log of decisions. */
  datatype Principal = Anonymous | Unknown | Known(log: seq<Record>)

  datatype Outcome = Outcome(result: Result, send: Option<Request>)

  method LoadContext(entries: Entries, approved: Option<Approved>, principal: Principal) returns (c: Context)
    ensures c.config == ConfigFor(entries, approved)
    ensures !c.config.enforcing && !c.config.blockUnknown && (approved.None? ==> c.config.rules == [])
    ensures approved.Some? ==> c.config.rules == Enforcement(entries, approved.value.recommendations)
    ensures c.policyVersion.Some? <==> approved.Some?
    ensures approved.Some? ==> c.policyVersion == Some(approved.value.version)
    ensures c.principalKnown == principal.Known?
    ensures forall p :: p in c.granted <==> principal.Known? && Granted(principal.log, p)
    ensures forall p :: p in c.decided <==> principal.Known? && InForce(principal.log, p).Some?
  {
    var config: Config;
    if approved.Some? {
      var rules := EnforcementFrom(entries, approved.value.recommendations);
      config := Config(false, rules, false);
    } else {
      config := Config(false, [], false);
    }
    var granted: set<string>, decided: set<string> := {}, {};
    if principal.Known? {
      var effective := ResolveEffectiveConsent(principal.log);
      for i := 0 to |effective|
        invariant forall p :: p in decided <==> exists j :: 0 <= j < i && effective[j].purposeCode == p
        invariant forall p :: p in granted <==> exists j :: 0 <= j < i && effective[j].purposeCode == p && effective[j].status == GRANTED
      {
        decided := decided + {effective[i].purposeCode};
        if effective[i].status == GRANTED {
          granted := granted + {effective[i].purposeCode};
        }
      }
      SetsFromEffective(principal.log, effective, granted, decided);
    }
    c := Context(config, granted, decided, if approved.Some? then Some(approved.value.version) else None, principal.Known?);
  }

  function ConfigFor(entries: Entries, approved: Option<Approved>): Config {
    Config(false, if approved.Some? then Enforcement(entries, approved.value.recommendations) else [], false)
  }

  lemma SetsFromEffective(log: seq<Record>, effective: seq<Effective>, granted: set<string>, decided: set<string>)
    requires Resolves(log, effective)
    requires forall p :: p in decided <==> exists j :: 0 <= j < |effective| && effective[j].purposeCode == p
    requires forall p :: p in granted <==> exists j :: 0 <= j < |effective| && effective[j].purposeCode == p && effective[j].status == GRANTED
    ensures forall p :: p in granted <==> Granted(log, p)
    ensures forall p :: p in decided <==> InForce(log, p).Some?
  {
    forall p: string
      ensures p in granted <==> Granted(log, p)
      ensures p in decided <==> InForce(log, p).Some?
    {
      InForceIsGreatest(log, p);
      if InForce(log, p).Some? {
        var e := EffectiveOf(InForce(log, p).value);
        assert e in effective;
        var j := IndexOf(effective, e);
      }
      if j :| 0 <= j < |effective| && effective[j].purposeCode == p {
        assert effective[j] in effective;
      }
    }
  }

  /** The gate on this request, if the approved rules put one there. */
  function RuleFor(entries: Entries, approved: Option<Approved>, request: Request): Option<Rule> {
    if request.host.None? then None else FirstMatch(ConfigFor(entries, approved).rules, request.host.value)
  }

  /** The decision lets the request go. */
  predicate MayGo(entries: Entries, approved: Option<Approved>, principal: Principal, request: Request) {
    match RuleFor(entries, approved, request)
    case None => true
    case Some(rule) =>
      match rule.action
      case Allow => true
      case Block => false
      case RequireConsent => Purpose(rule).Some? && principal.Known? && Granted(principal.log, Purpose(rule).value)
  }

  /** The purpose the gate names is granted by the log. */
  predicate GateGranted(rule: Rule, log: seq<Record>) {
    rule.action == RequireConsent && rule.purpose.Some? && rule.purpose.value != "" && Granted(log, rule.purpose.value)
  }

  /**
   * `guardOutboundRequest`: what may be sent is the request as redacted, or nothing. It goes exactly when
   * the redaction rules were accepted and fully applied and the decision lets it.
   */
  method GuardOutboundRequest(entries: Entries, approved: Option<Approved>, principal: Principal,
                              request: Request, redaction: Redaction) returns (o: Outcome)
    ensures o.send.Some? <==> (redaction.NotAsked? || redaction.Walked?) && MayGo(entries, approved, principal, request)
    ensures o.send.Some? ==> o.send.value == if redaction.Walked? then redaction.request else request
    ensures o.send.Some? <==> o.result.effect == Allowed
    ensures o.send.Some? ==> o.result.class_ !in {BLOCK, REQUIRE_CONSENT}
    ensures redaction.Rejected? ==> o.result.class_ == BLOCK
    ensures o.result.redactions == if redaction.Walked? || redaction.Refused? then redaction.ruleIds else []
    ensures o.result.rule == RuleFor(entries, approved, request)
    ensures o.result.rule == if approved.None? || request.host.None? then None
                             else FirstMatch(Enforcement(entries, approved.value.recommendations), request.host.value)
    ensures o.send.Some? <==>
              && (redaction.NotAsked? || redaction.Walked?)
              && (|| o.result.rule.None?
                  || o.result.rule.value.action == Allow
                  || (principal.Known? && GateGranted(o.result.rule.value, principal.log)))
  {
    if redaction.Rejected? {
      var context := LoadContext(entries, approved, principal);
      var result := EvaluateFirewall(request.host, context, []);
      return Outcome(result.(effect := Blocked, class_ := BLOCK), None);
    }
    var context := LoadContext(entries, approved, principal);
    var ids := if redaction.Walked? || redaction.Refused? then redaction.ruleIds else [];
    var result := EvaluateFirewall(request.host, context, ids);
    var send := None;
    if result.effect == Allowed {
      if redaction.Refused? {
        send := None;
      } else if redaction.Walked? {
        send := Some(redaction.request);
      } else {
        send := Some(request);
      }
    }
    if redaction.Refused? && result.effect == Allowed {
      result := result.(class_ := BLOCK, effect := Blocked);
    }
    o := Outcome(result, send);
  }

  /**
   * A request under a consent gate may go only if the greatest record of the gate's purpose, in decision
   * time, storage time and id, is a grant; no record, or any later refusal, holds it back.
   */
  lemma GatedRequestNeedsGreatestGrant(entries: Entries, approved: Option<Approved>, principal: Principal, request: Request)
    requires RuleFor(entries, approved, request).Some? && RuleFor(entries, approved, request).value.action == RequireConsent
    requires principal.Known? ==> DistinctIds(principal.log)
    ensures MayGo(entries, approved, principal, request)
            <==> var purpose := Purpose(RuleFor(entries, approved, request).value);
                 && purpose.Some? && principal.Known?
                 && exists r :: r in principal.log && r.purposeCode == purpose.value && Greatest(principal.log, r) && r.status == GRANTED
  {
    var purpose := Purpose(RuleFor(entries, approved, request).value);
    if purpose.Some? && principal.Known? {
      GrantedIffGreatestGrants(principal.log, purpose.value);
    }
  }
}
