/** From observations to jurisdictions, and on to a verdict. */
module Jurisdictions {
  // Everything observed or asserted accumulates, nothing is ranked away, and the result carries into
  // the evaluator. How a region code is read, and what it maps to, are oracles.

  import opened Text
  import opened Sequences
  import opened InsertionMaps
  import PolicyEngine
  import PolicyVerdicts

  datatype Confidence = Low | Medium | High

  function Rank(c: Confidence): nat {
    match c case Low => 0 case Medium => 1 case High => 2
  }

  function Strongest(a: Confidence, b: Confidence): Confidence {
    if Rank(a) >= Rank(b) then a else b
  }

  datatype Reading = LooksLikeAddress | Unrecognised | Region(code: string)

  datatype Signal = Signal(region: string, source: string, confidence: Option<Confidence>)

  datatype Visitor = Visitor(signals: seq<Signal>, asserted: seq<string>)

  /** How a region text reads, what a region code maps to, and how far each source is trusted by default. */
  datatype Atlas = Atlas(read: string -> Reading, mapped: string -> seq<string>, trust: string -> Confidence)

  function ConfidenceOf(atlas: Atlas, s: Signal): Confidence {
    if s.confidence.Some? then s.confidence.value else atlas.trust(s.source)
  }

  /** The jurisdictions one observation contributes; an address or an unknown code contributes none. */
  function MappedBy(atlas: Atlas, s: Signal): seq<string> {
    match atlas.read(s.region)
    case LooksLikeAddress => []
    case Unrecognised => []
    case Region(code) => atlas.mapped(code)
  }

  // ---- What supports a jurisdiction -----------------------------------------

  /** The observation reads as a region, and the region maps to the jurisdiction. */
  predicate PointsTo(atlas: Atlas, s: Signal, j: string) {
    atlas.read(s.region).Region? && j in atlas.mapped(atlas.read(s.region).code)
  }

  lemma MappedMeans(atlas: Atlas, s: Signal, j: string)
    ensures j in MappedBy(atlas, s) <==> PointsTo(atlas, s, j)
  {
  }

  /** With its own confidence, or with the default of its source. */
  predicate Contributes(atlas: Atlas, s: Signal, j: string, c: Confidence) {
    PointsTo(atlas, s, j) && (s.confidence == Some(c) || (s.confidence == None && atlas.trust(s.source) == c))
  }

  /** Some observation or assertion supports the jurisdiction with this confidence. */
  predicate Supported(atlas: Atlas, v: Visitor, j: string, c: Confidence) {
    (exists s :: s in v.signals && Contributes(atlas, s, j, c)) || (j in v.asserted && c == High)
  }

  /** This confidence is the best support there is. */
  predicate BestSupport(atlas: Atlas, v: Visitor, j: string, c: Confidence) {
    Supported(atlas, v, j, c) && !(c != High && Supported(atlas, v, j, High)) && !(c == Low && Supported(atlas, v, j, Medium))
  }

  predicate InPlay(atlas: Atlas, v: Visitor, j: string) {
    (exists s :: s in v.signals && PointsTo(atlas, s, j)) || j in v.asserted
  }

  type Support = Dict<string, Confidence>

  function Look(support: Support, j: string): Option<Confidence> {
    if j in support.table then Some(support.table[j]) else None
  }

  /** The right entry for a jurisdiction: none unless it is in play, and then its best support. */
  predicate Right(atlas: Atlas, v: Visitor, entry: Option<Confidence>, j: string) {
    match entry
    case None => !InPlay(atlas, v, j)
    case Some(c) => BestSupport(atlas, v, j, c)
  }

  ghost predicate Records(atlas: Atlas, v: Visitor, support: Support) {
    support.Valid() && forall j: string :: Right(atlas, v, Look(support, j), j)
  }

  function Joined(entry: Option<Confidence>, c: Confidence): Option<Confidence> {
    Some(if entry.Some? then Strongest(entry.value, c) else c)
  }

  /** `was` with `c` added for the jurisdictions in `some`. */
  ghost predicate Raised(was: Support, now: Support, some: seq<string>, c: Confidence) {
    && now.Valid()
    && forall j: string :: Look(now, j) == if j in some then Joined(Look(was, j), c) else Look(was, j)
  }

  method RecordAll(was: Support, some: seq<string>, c: Confidence) returns (now: Support)
    requires was.Valid()
    ensures Raised(was, now, some, c)
  {
    now := was;
    for i := 0 to |some|
      invariant Raised(was, now, some[..i], c)
    {
      assert some[..i + 1] == some[..i] + [some[i]];
      now := now.Put(some[i], Joined(Look(now, some[i]), c).value);
    }
    assert some[..|some|] == some;
  }

  /** The entry for `j` after one more reason, with support `c` where `adds`. */
  lemma EntryStaysRight(atlas: Atlas, v: Visitor, after: Visitor, entry: Option<Confidence>, j: string, adds: bool, c: Confidence)
    requires Right(atlas, v, entry, j)
    requires forall d :: Supported(atlas, after, j, d) <==> Supported(atlas, v, j, d) || (adds && d == c)
    requires InPlay(atlas, after, j) <==> InPlay(atlas, v, j) || adds
    requires !InPlay(atlas, v, j) ==> forall d :: !Supported(atlas, v, j, d)
    ensures Right(atlas, after, if adds then Joined(entry, c) else entry, j)
  {
  }

  lemma InPlayIffSupported(atlas: Atlas, v: Visitor, j: string)
    ensures InPlay(atlas, v, j) <==> Supported(atlas, v, j, Low) || Supported(atlas, v, j, Medium) || Supported(atlas, v, j, High)
  {
    if s :| s in v.signals && PointsTo(atlas, s, j) {
      var c := ConfidenceOf(atlas, s);
      assert Contributes(atlas, s, j, c);
      assert Supported(atlas, v, j, c);
      assert c == Low || c == Medium || c == High;
    }
  }

  lemma SignalRaises(atlas: Atlas, v: Visitor, s: Signal, was: Support, now: Support)
    requires Records(atlas, v, was)
    requires Raised(was, now, MappedBy(atlas, s), ConfidenceOf(atlas, s))
    ensures Records(atlas, v.(signals := v.signals + [s]), now)
  {
    var after := v.(signals := v.signals + [s]);
    forall j: string ensures Right(atlas, after, Look(now, j), j) {
      forall d ensures Supported(atlas, after, j, d) <==> Supported(atlas, v, j, d) || Contributes(atlas, s, j, d) {
        OneMoreSignal(atlas, v, s, j, d);
      }
      InPlayIffSupported(atlas, v, j);
      InPlayIffSupported(atlas, after, j);
      EntryStaysRight(atlas, v, after, Look(was, j), j, j in MappedBy(atlas, s), ConfidenceOf(atlas, s));
    }
  }

  lemma OneMoreSignal(atlas: Atlas, v: Visitor, s: Signal, j: string, c: Confidence)
    ensures Supported(atlas, v.(signals := v.signals + [s]), j, c) <==> Supported(atlas, v, j, c) || Contributes(atlas, s, j, c)
  {
    var after := v.(signals := v.signals + [s]);
    if t :| t in v.signals && Contributes(atlas, t, j, c) { assert t in after.signals; }
    assert s in after.signals;
  }

  lemma AssertionRaises(atlas: Atlas, v: Visitor, more: seq<string>, was: Support, now: Support)
    requires Records(atlas, v, was) && Raised(was, now, more, High)
    ensures Records(atlas, v.(asserted := v.asserted + more), now)
  {
    var after := v.(asserted := v.asserted + more);
    forall j: string ensures Right(atlas, after, Look(now, j), j) {
      InPlayIffSupported(atlas, v, j);
      InPlayIffSupported(atlas, after, j);
      EntryStaysRight(atlas, v, after, Look(was, j), j, j in more, High);
    }
  }

  // ---- Regimes --------------------------------------------------------------

  predicate Ascending(s: seq<string>) {
    forall i, j :: 0 <= i < j < |s| ==> Less(s[i], s[j])
  }

  lemma SortedKeysAscend(keys: seq<string>)
    requires forall i, j :: 0 <= i < j < |keys| ==> keys[i] != keys[j]
    ensures Ascending(Sort(keys, Leq)) && forall k :: k in Sort(keys, Leq) <==> k in keys
  {
    LeqOrders();
    SortSorts(keys, Leq);
    DistinctImages(keys, Sort(keys, Leq), (k: string) => k);
  }

  predicate ReachesAs(rule: PolicyEngine.Rule, jurisdictions: seq<string>, regime: string) {
    rule.regime == regime && PolicyEngine.Meets(rule.regions, jurisdictions)
  }

  predicate RegimeReached(rules: seq<PolicyEngine.Rule>, jurisdictions: seq<string>, regime: string) {
    exists r :: r in rules && ReachesAs(r, jurisdictions, regime)
  }

  /** Some rule that reaches the jurisdictions rests on more than a research model. */
  predicate RegimeStatutory(rules: seq<PolicyEngine.Rule>, jurisdictions: seq<string>, regime: string) {
    exists r :: r in rules && ReachesAs(r, jurisdictions, regime) && !r.derived
  }

  lemma OneMoreRule(rules: seq<PolicyEngine.Rule>, r: PolicyEngine.Rule, jurisdictions: seq<string>, regime: string)
    ensures RegimeReached(rules + [r], jurisdictions, regime)
            <==> RegimeReached(rules, jurisdictions, regime) || ReachesAs(r, jurisdictions, regime)
    ensures RegimeStatutory(rules + [r], jurisdictions, regime)
            <==> RegimeStatutory(rules, jurisdictions, regime) || (ReachesAs(r, jurisdictions, regime) && !r.derived)
  {
    if x :| x in rules && ReachesAs(x, jurisdictions, regime) { assert x in rules + [r]; }
    if x :| x in rules && ReachesAs(x, jurisdictions, regime) && !x.derived { assert x in rules + [r]; }
    assert r in rules + [r];
  }

  /** Per regime: absent, held up by a statute, or resting on derived rules alone. */
  ghost predicate Scoped(rules: seq<PolicyEngine.Rule>, jurisdictions: seq<string>, scope: Dict<string, bool>) {
    && scope.Valid()
    && (forall g: string :: g in scope.table <==> RegimeReached(rules, jurisdictions, g))
    && (forall g: string :: g in scope.table ==> (scope.table[g] <==> !RegimeStatutory(rules, jurisdictions, g)))
  }

  function ScopeStep(scope: Dict<string, bool>, rule: PolicyEngine.Rule): Dict<string, bool>
    requires scope.Valid()
  {
    scope.Put(rule.regime, if rule.regime in scope.table then scope.table[rule.regime] && rule.derived else rule.derived)
  }

  lemma OneMoreOutOfScope(rules: seq<PolicyEngine.Rule>, r: PolicyEngine.Rule, jurisdictions: seq<string>, scope: Dict<string, bool>)
    requires Scoped(rules, jurisdictions, scope) && !PolicyEngine.Meets(r.regions, jurisdictions)
    ensures Scoped(rules + [r], jurisdictions, scope)
  {
    forall g: string
      ensures RegimeReached(rules + [r], jurisdictions, g) <==> RegimeReached(rules, jurisdictions, g)
      ensures RegimeStatutory(rules + [r], jurisdictions, g) <==> RegimeStatutory(rules, jurisdictions, g)
    {
      OneMoreRule(rules, r, jurisdictions, g);
    }
  }

  lemma OneMoreInScope(rules: seq<PolicyEngine.Rule>, r: PolicyEngine.Rule, jurisdictions: seq<string>, scope: Dict<string, bool>)
    requires Scoped(rules, jurisdictions, scope) && PolicyEngine.Meets(r.regions, jurisdictions)
    ensures Scoped(rules + [r], jurisdictions, ScopeStep(scope, r))
  {
    var after := ScopeStep(scope, r);
    forall g: string
      ensures g in after.table <==> RegimeReached(rules + [r], jurisdictions, g)
      ensures g in after.table ==> (after.table[g] <==> !RegimeStatutory(rules + [r], jurisdictions, g))
    {
      OneMoreRule(rules, r, jurisdictions, g);
      StatutoryIsReached(rules, jurisdictions, g);
    }
  }

  method InScope(jurisdictions: seq<string>, rules: seq<PolicyEngine.Rule>) returns (scope: Dict<string, bool>)
    ensures Scoped(rules, jurisdictions, scope)
  {
    scope := Empty();
    for i := 0 to |rules|
      invariant Scoped(rules[..i], jurisdictions, scope)
    {
      var rule := rules[i];
      assert rules[..i + 1] == rules[..i] + [rule];
      if !PolicyEngine.Meets(rule.regions, jurisdictions) {
        OneMoreOutOfScope(rules[..i], rule, jurisdictions, scope);
        continue;
      }
      OneMoreInScope(rules[..i], rule, jurisdictions, scope);
      var derived := if rule.regime in scope.table then scope.table[rule.regime] && rule.derived else rule.derived;
      scope := scope.Put(rule.regime, derived);
    }
    assert rules[..|rules|] == rules;
  }

  lemma StatutoryIsReached(rules: seq<PolicyEngine.Rule>, jurisdictions: seq<string>, regime: string)
    ensures RegimeStatutory(rules, jurisdictions, regime) ==> RegimeReached(rules, jurisdictions, regime)
  {
  }

  /** A regime is reported as derived only when every rule of it that reaches these jurisdictions is. */
  method RegimesFor(jurisdictions: seq<string>, rules: seq<PolicyEngine.Rule>) returns (regimes: seq<string>, derivedRegimes: seq<string>)
    ensures Ascending(regimes) && Ascending(derivedRegimes)
    ensures forall g :: g in regimes <==> RegimeStatutory(rules, jurisdictions, g)
    ensures forall g :: g in derivedRegimes <==> RegimeReached(rules, jurisdictions, g) && !RegimeStatutory(rules, jurisdictions, g)
  {
    var scope := InScope(jurisdictions, rules);
    regimes, derivedRegimes := SplitScope(scope);
    SplitByScope(rules, jurisdictions, scope, regimes, derivedRegimes);
    SortedKeysAscend(regimes);
    SortedKeysAscend(derivedRegimes);
    regimes, derivedRegimes := Sort(regimes, Leq), Sort(derivedRegimes, Leq);
  }

  predicate Distinct(s: seq<string>) {
    forall i, j :: 0 <= i < j < |s| ==> s[i] != s[j]
  }

  predicate MarkedAs(scope: Dict<string, bool>, regime: string, derived: bool) {
    regime in scope.table && scope.table[regime] == derived
  }

  method SplitScope(scope: Dict<string, bool>) returns (regimes: seq<string>, derivedRegimes: seq<string>)
    requires scope.Valid()
    ensures Distinct(regimes) && Distinct(derivedRegimes)
    ensures forall k :: k in regimes <==> k in scope.keys && MarkedAs(scope, k, false)
    ensures forall k :: k in derivedRegimes <==> k in scope.keys && MarkedAs(scope, k, true)
  {
    regimes, derivedRegimes := [], [];
    for i := 0 to |scope.keys|
      invariant forall k :: k in regimes <==> k in scope.keys[..i] && MarkedAs(scope, k, false)
      invariant forall k :: k in derivedRegimes <==> k in scope.keys[..i] && MarkedAs(scope, k, true)
      invariant Distinct(regimes) && Distinct(derivedRegimes)
    {
      var regime := scope.keys[i];
      assert regime in scope.keys && regime !in scope.keys[..i];
      assert scope.keys[..i + 1] == scope.keys[..i] + [regime];
      if scope.table[regime] {
        derivedRegimes := derivedRegimes + [regime];
      } else {
        regimes := regimes + [regime];
      }
    }
    assert scope.keys[..|scope.keys|] == scope.keys;
  }

  lemma SplitByScope(rules: seq<PolicyEngine.Rule>, jurisdictions: seq<string>, scope: Dict<string, bool>,
                     regimes: seq<string>, derivedRegimes: seq<string>)
    requires Scoped(rules, jurisdictions, scope)
    requires forall k :: k in regimes <==> k in scope.keys && MarkedAs(scope, k, false)
    requires forall k :: k in derivedRegimes <==> k in scope.keys && MarkedAs(scope, k, true)
    ensures forall g :: g in regimes <==> RegimeStatutory(rules, jurisdictions, g)
    ensures forall g :: g in derivedRegimes <==> RegimeReached(rules, jurisdictions, g) && !RegimeStatutory(rules, jurisdictions, g)
  {
    forall g: string
      ensures g in regimes <==> RegimeStatutory(rules, jurisdictions, g)
      ensures g in derivedRegimes <==> RegimeReached(rules, jurisdictions, g) && !RegimeStatutory(rules, jurisdictions, g)
    {
      StatutoryIsReached(rules, jurisdictions, g);
      assert g in scope.keys <==> g in scope.table;
    }
  }

  // ---- The resolution -------------------------------------------------------

  datatype ReasonKind = SignalMapped | OperatorAsserted | RegionUnmapped | RegionUnrecognised | RegionRejected | SignalsDisagree | NoSignals
  datatype Reason = Reason(kind: ReasonKind, jurisdiction: Option<string>)

  datatype Resolution = Resolution(
    jurisdictions: seq<string>, confidence: map<string, Confidence>, overall: Option<Confidence>,
    regimes: seq<string>, derivedRegimes: seq<string>, reasons: seq<Reason>, conflicting: bool)

  function SetText(jurisdictions: seq<string>): string {
    Join(Sort(jurisdictions, Leq), ',')
  }

  /** Two observations that map to something map to different sets. */
  predicate Disagree(atlas: Atlas, signals: seq<Signal>) {
    exists s, t :: s in signals && t in signals && MappedBy(atlas, s) != [] && MappedBy(atlas, t) != []
                   && SetText(MappedBy(atlas, s)) != SetText(MappedBy(atlas, t))
  }

  ghost predicate Explains(reasons: seq<Reason>, support: Support) {
    forall j: string :: j in support.table <==> exists r :: r in reasons && r.jurisdiction == Some(j)
  }

  function Reasons(kind: ReasonKind, jurisdictions: seq<string>): seq<Reason> {
    Map(jurisdictions, (j: string) => Reason(kind, Some(j)))
  }

  lemma MoreReasons(reasons: seq<Reason>, was: Support, now: Support, some: seq<string>, c: Confidence, kind: ReasonKind)
    requires Explains(reasons, was) && Raised(was, now, some, c)
    ensures Explains(reasons + Reasons(kind, some), now)
  {
    var added := Reasons(kind, some);
    forall j: string ensures j in now.table <==> exists r :: r in reasons + added && r.jurisdiction == Some(j) {
      assert Look(now, j) == if j in some then Joined(Look(was, j), c) else Look(was, j);
      if j in some {
        var i := IndexOf(some, j);
        assert added[i] in reasons + added;
      } else if j in was.table {
        var r :| r in reasons && r.jurisdiction == Some(j);
        assert r in reasons + added;
      }
      if r :| r in reasons + added && r.jurisdiction == Some(j) {
        if r in added { var i := IndexOf(added, r); } else { assert r in reasons; }
      }
    }
  }

  /** The reason one observation gives. */
  predicate GivesReason(atlas: Atlas, s: Signal, r: Reason) {
    match r.kind
    case SignalMapped => r.jurisdiction.Some? && PointsTo(atlas, s, r.jurisdiction.value)
    case RegionRejected => r.jurisdiction.None? && atlas.read(s.region) == LooksLikeAddress
    case RegionUnrecognised => r.jurisdiction.None? && atlas.read(s.region) == Unrecognised
    case RegionUnmapped => r.jurisdiction.None? && atlas.read(s.region).Region? && atlas.mapped(atlas.read(s.region).code) == []
    case _ => false
  }

  method ReasonsOf(atlas: Atlas, signal: Signal) returns (reasons: seq<Reason>)
    ensures reasons == Reasons(SignalMapped, MappedBy(atlas, signal)) + Remarks(atlas, signal)
    ensures forall r :: r in reasons <==> GivesReason(atlas, signal, r)
  {
    var mapped := MappedBy(atlas, signal);
    reasons := Reasons(SignalMapped, mapped);
    ReasonsMember(SignalMapped, mapped);
    forall j ensures j in mapped <==> PointsTo(atlas, signal, j) {
      MappedMeans(atlas, signal, j);
    }
    if mapped == [] {
      var kind := match atlas.read(signal.region)
        case LooksLikeAddress => RegionRejected
        case Unrecognised => RegionUnrecognised
        case Region(_) => RegionUnmapped;
      reasons := reasons + [Reason(kind, None)];
    }
  }

  /** Why an observation that maps to nothing does not. */
  function Remarks(atlas: Atlas, s: Signal): seq<Reason> {
    if MappedBy(atlas, s) != [] then []
    else match atlas.read(s.region)
      case LooksLikeAddress => [Reason(RegionRejected, None)]
      case Unrecognised => [Reason(RegionUnrecognised, None)]
      case Region(_) => [Reason(RegionUnmapped, None)]
  }

  lemma ReasonsMember(kind: ReasonKind, some: seq<string>)
    ensures forall r :: r in Reasons(kind, some) <==> r.kind == kind && r.jurisdiction.Some? && r.jurisdiction.value in some
  {
    forall r ensures r in Reasons(kind, some) <==> r.kind == kind && r.jurisdiction.Some? && r.jurisdiction.value in some {
      if r in Reasons(kind, some) {
        var i := IndexOf(Reasons(kind, some), r);
      }
      if r.kind == kind && r.jurisdiction.Some? && r.jurisdiction.value in some {
        var i := IndexOf(some, r.jurisdiction.value);
        assert Reasons(kind, some)[i] == r;
      }
    }
  }

  method Observe(atlas: Atlas, signals: seq<Signal>) returns (support: Support, reasons: seq<Reason>)
    ensures Records(atlas, Visitor(signals, []), support) && Explains(reasons, support)
    ensures forall r :: r in reasons <==> exists s :: s in signals && GivesReason(atlas, s, r)
  {
    support, reasons := Empty(), [];
    for i := 0 to |signals|
      invariant Records(atlas, Visitor(signals[..i], []), support) && Explains(reasons, support)
      invariant forall r :: r in reasons <==> exists s :: s in signals[..i] && GivesReason(atlas, s, r)
    {
      var signal := signals[i];
      assert signals[..i + 1] == signals[..i] + [signal];
      ghost var v := Visitor(signals[..i], []);
      var mapped := MappedBy(atlas, signal);
      var was := support;
      support := RecordAll(was, mapped, ConfidenceOf(atlas, signal));
      SignalRaises(atlas, v, signal, was, support);
      MoreReasons(reasons, was, support, mapped, ConfidenceOf(atlas, signal), SignalMapped);
      if Remarks(atlas, signal) != [] {
        NotedOnly(reasons + Reasons(SignalMapped, mapped), support, Remarks(atlas, signal)[0]);
      }
      var found := ReasonsOf(atlas, signal);
      assert reasons + found == reasons + Reasons(SignalMapped, mapped) + Remarks(atlas, signal);
      reasons := reasons + found;
    }
    assert signals[..|signals|] == signals;
  }

  lemma NotedOnly(reasons: seq<Reason>, support: Support, r: Reason)
    requires Explains(reasons, support) && r.jurisdiction == None
    ensures Explains(reasons + [r], support)
  {
    forall j: string ensures j in support.table <==> exists x :: x in reasons + [r] && x.jurisdiction == Some(j) {
      if j in support.table {
        var x :| x in reasons && x.jurisdiction == Some(j);
        assert x in reasons + [r];
      }
      if x :| x in reasons + [r] && x.jurisdiction == Some(j) { assert x in reasons; }
    }
  }

  /** Where no jurisdiction has a comma in its name, sets have the same text exactly when they are the same, repetitions and all. */
  lemma SetTextMeans(a: seq<string>, b: seq<string>)
    requires a != [] && b != [] && Free(a, ',') && Free(b, ',')
    ensures SetText(a) == SetText(b) <==> multiset(a) == multiset(b)
  {
    LeqOrders();
    var x, y := Sort(a, Leq), Sort(b, Leq);
    SortSorts(a, Leq);
    SortSorts(b, Leq);
    FreeSorted(a, x);
    FreeSorted(b, y);
    if SetText(a) == SetText(b) {
      JoinCount(x, ',');
      JoinCount(y, ',');
      CountAllZero(x, ',');
      CountAllZero(y, ',');
      JoinInjective(x, y, ',');
    }
    if multiset(a) == multiset(b) {
      SortForgetsOrder(a, b, Leq);
    }
  }

  lemma FreeSorted(a: seq<string>, x: seq<string>)
    requires Free(a, ',') && forall s :: s in x <==> s in a
    ensures Free(x, ',')
  {
    forall i | 0 <= i < |x| ensures ',' !in x[i] {
      assert x[i] in a;
    }
  }

  method Conflicting(atlas: Atlas, signals: seq<Signal>) returns (conflicting: bool)
    ensures conflicting == Disagree(atlas, signals)
  {
    var sets: set<string> := {};
    for i := 0 to |signals|
      invariant forall t :: t in sets <==> exists j :: 0 <= j < i && MappedBy(atlas, signals[j]) != [] && SetText(MappedBy(atlas, signals[j])) == t
    {
      if |MappedBy(atlas, signals[i])| > 0 {
        sets := sets + {SetText(MappedBy(atlas, signals[i]))};
      }
    }
    conflicting := |sets| > 1;
    MoreThanOne(sets);
    forall s | s in signals && MappedBy(atlas, s) != [] ensures SetText(MappedBy(atlas, s)) in sets {
      var j := IndexOf(signals, s);
    }
    if conflicting {
      var a, b :| a in sets && b in sets && a != b;
      var i :| 0 <= i < |signals| && MappedBy(atlas, signals[i]) != [] && SetText(MappedBy(atlas, signals[i])) == a;
      var j :| 0 <= j < |signals| && MappedBy(atlas, signals[j]) != [] && SetText(MappedBy(atlas, signals[j])) == b;
      assert signals[i] in signals && signals[j] in signals;
    }
  }

  lemma MoreThanOne(sets: set<string>)
    ensures |sets| > 1 <==> exists a, b :: a in sets && b in sets && a != b
  {
    if |sets| > 1 {
      var a :| a in sets;
      assert |sets - {a}| == |sets| - 1;
      var b :| b in sets - {a};
    }
    if a, b :| a in sets && b in sets && a != b {
      assert |sets - {a} - {b}| == |sets| - 2;
    }
  }

  method Overall(jurisdictions: seq<string>, confidence: map<string, Confidence>) returns (overall: Option<Confidence>)
    requires forall j :: j in jurisdictions ==> j in confidence
    ensures overall.None? <==> jurisdictions == []
    ensures overall.Some? ==>
              && (forall j :: j in jurisdictions ==> Rank(confidence[j]) <= Rank(overall.value))
              && exists j :: j in jurisdictions && confidence[j] == overall.value
  {
    overall := None;
    for i := 0 to |jurisdictions|
      invariant overall.None? <==> i == 0
      invariant overall.Some? ==>
                  && (forall k :: 0 <= k < i ==> Rank(confidence[jurisdictions[k]]) <= Rank(overall.value))
                  && exists k :: 0 <= k < i && confidence[jurisdictions[k]] == overall.value
    {
      var c := confidence[jurisdictions[i]];
      overall := Some(if overall.None? then c else Strongest(overall.value, c));
    }
  }

  predicate NamesNone(r: Reason) {
    r.kind == SignalsDisagree || r.kind == NoSignals
  }

  /** The reasons observations and assertions give. */
  predicate Stated(atlas: Atlas, v: Visitor, r: Reason) {
    || (exists s :: s in v.signals && GivesReason(atlas, s, r))
    || (r.kind == OperatorAsserted && r.jurisdiction.Some? && r.jurisdiction.value in v.asserted)
  }

  /** Observations first, then the operator's assertions, which always count as high. */
  method Accumulate(atlas: Atlas, visitor: Visitor) returns (support: Support, reasons: seq<Reason>)
    ensures Records(atlas, visitor, support) && Explains(reasons, support)
    ensures forall r :: r in reasons <==> Stated(atlas, visitor, r)
  {
    var observed;
    observed, reasons := Observe(atlas, visitor.signals);
    support := RecordAll(observed, visitor.asserted, High);
    AssertionRaises(atlas, Visitor(visitor.signals, []), visitor.asserted, observed, support);
    assert Visitor(visitor.signals, [] + visitor.asserted) == visitor;
    MoreReasons(reasons, observed, support, visitor.asserted, High, OperatorAsserted);
    ReasonsMember(OperatorAsserted, visitor.asserted);
    reasons := reasons + Reasons(OperatorAsserted, visitor.asserted);
  }

  /** The two closing remarks, about disagreement and about having nothing to go on. */
  method Close(reasons: seq<Reason>, support: Support, conflicting: bool, nothing: bool) returns (all: seq<Reason>)
    requires Explains(reasons, support) && forall r :: r in reasons ==> !NamesNone(r)
    ensures Explains(all, support)
    ensures Reason(SignalsDisagree, None) in all <==> conflicting
    ensures Reason(NoSignals, None) in all <==> nothing
    ensures forall r :: !NamesNone(r) ==> (r in all <==> r in reasons)
    ensures forall r :: NamesNone(r) && r in all ==> r.jurisdiction.None?
  {
    all := reasons;
    if conflicting {
      NotedOnly(all, support, Reason(SignalsDisagree, None));
      all := all + [Reason(SignalsDisagree, None)];
    }
    if nothing {
      NotedOnly(all, support, Reason(NoSignals, None));
      all := all + [Reason(NoSignals, None)];
    }
  }

  /** The union of everything observed and asserted, in order, each with its best support and a reason. */
  ghost predicate IsUnion(atlas: Atlas, v: Visitor, r: Resolution) {
    && Ascending(r.jurisdictions)
    && (forall j :: j in r.jurisdictions <==> InPlay(atlas, v, j))
    && (forall j :: j in r.confidence <==> j in r.jurisdictions)
    && (forall j :: j in r.confidence ==> BestSupport(atlas, v, j, r.confidence[j]))
    && (forall j: string :: j in r.confidence <==> exists reason :: reason in r.reasons && reason.jurisdiction == Some(j))
  }

  /**
   * `resolveJurisdictions`: the answer is the union of everything observed and asserted, each with its
   * best support, and every jurisdiction has a reason. Weak support and disagreement remove nothing.
   */
  method ResolveJurisdictions(atlas: Atlas, visitor: Visitor, rules: seq<PolicyEngine.Rule>) returns (r: Resolution)
    ensures IsUnion(atlas, visitor, r)
    ensures r.conflicting == Disagree(atlas, visitor.signals)
    ensures Reason(SignalsDisagree, None) in r.reasons <==> r.conflicting
    ensures Reason(NoSignals, None) in r.reasons <==> r.jurisdictions == []
    ensures forall reason :: !NamesNone(reason) ==> (reason in r.reasons <==> Stated(atlas, visitor, reason))
    ensures r.overall.None? <==> r.jurisdictions == []
    ensures r.overall.Some? ==> forall j :: j in r.confidence ==> Rank(r.confidence[j]) <= Rank(r.overall.value)
    ensures r.overall.Some? ==> exists j :: j in r.confidence && r.confidence[j] == r.overall.value
    ensures forall g :: g in r.regimes <==> RegimeStatutory(rules, r.jurisdictions, g)
    ensures forall g :: g in r.derivedRegimes <==> RegimeReached(rules, r.jurisdictions, g) && !RegimeStatutory(rules, r.jurisdictions, g)
  {
    var support, reasons := Accumulate(atlas, visitor);
    var conflicting := Conflicting(atlas, visitor.signals);
    SortedKeysAscend(support.keys);
    var jurisdictions := Sort(support.keys, Leq);
    reasons := Close(reasons, support, conflicting, jurisdictions == []);
    KeysAreInPlay(atlas, visitor, support, jurisdictions);
    var overall := Overall(jurisdictions, support.table);
    var regimes, derivedRegimes := RegimesFor(jurisdictions, rules);
    r := Resolution(jurisdictions, support.table, overall, regimes, derivedRegimes, reasons, conflicting);
  }

  lemma KeysAreInPlay(atlas: Atlas, v: Visitor, support: Support, jurisdictions: seq<string>)
    requires Records(atlas, v, support) && forall j :: j in jurisdictions <==> j in support.keys
    ensures forall j :: j in jurisdictions <==> InPlay(atlas, v, j)
    ensures forall j :: j in jurisdictions <==> j in support.table
    ensures forall j :: j in support.table ==> BestSupport(atlas, v, j, support.table[j])
  {
    forall j: string
      ensures j in jurisdictions <==> InPlay(atlas, v, j)
      ensures j in support.table ==> BestSupport(atlas, v, j, support.table[j])
    {
      assert Right(atlas, v, Look(support, j), j);
      InPlayIffSupported(atlas, v, j);
    }
  }

  // ---- End to end -----------------------------------------------------------

  /** `resolveContext`: the jurisdictions found are exactly the ones evaluated. */
  method ResolveContext(atlas: Atlas, visitor: Visitor, activity: PolicyEngine.Context, rules: seq<PolicyEngine.Rule>)
    returns (r: Resolution, d: PolicyEngine.Decision)
    ensures forall j :: j in r.jurisdictions <==> InPlay(atlas, visitor, j)
    ensures d == PolicyEngine.Decide(activity.(jurisdictions := r.jurisdictions), rules)
    ensures forall g :: g in d.regimes ==> g in r.regimes || (activity.includeDerivedModels && g in r.derivedRegimes)
    ensures r.jurisdictions == [] ==> d.outcome == PolicyEngine.REVIEW
  {
    r := ResolveJurisdictions(atlas, visitor, rules);
    d := PolicyEngine.Evaluate(activity.(jurisdictions := r.jurisdictions), rules);
    forall g | g in d.regimes ensures g in r.regimes || (activity.includeDerivedModels && g in r.derivedRegimes) {
      DecisionCitesReportedRegimes(activity.(jurisdictions := r.jurisdictions), rules, g);
    }
  }

  lemma {:induction false} DistinctMembers(items: seq<string>, x: string)
    ensures x in PolicyEngine.Distinct(items) <==> x in items
  {
    if items != [] {
      DistinctMembers(items[..|items| - 1], x);
      assert items == items[..|items| - 1] + [items[|items| - 1]];
    }
  }

  /** A decision never cites a regime the resolver does not report: the two cannot disagree. */
  lemma DecisionCitesReportedRegimes(context: PolicyEngine.Context, rules: seq<PolicyEngine.Rule>, g: string)
    requires g in PolicyEngine.Decide(context, rules).regimes
    ensures RegimeReached(rules, context.jurisdictions, g)
    ensures !context.includeDerivedModels ==> RegimeStatutory(rules, context.jurisdictions, g)
  {
    var selected := PolicyEngine.Selected(context, rules);
    var names := Map(selected, (r: PolicyEngine.Rule) => r.regime);
    LeqOrders();
    SortSorts(PolicyEngine.Distinct(names), Leq);
    DistinctMembers(names, g);
    var i := IndexOf(names, g);
    PolicyEngine.SelectedMember(context, rules, selected[i]);
    assert ReachesAs(selected[i], context.jurisdictions, g);
  }

  /** At least the same observations and assertions. */
  predicate KnowsMore(v: Visitor, w: Visitor) {
    (forall s :: s in v.signals ==> s in w.signals) && (forall j :: j in v.asserted ==> j in w.asserted)
  }

  /**
   * Knowing more about a visitor never drops a jurisdiction, and makes the reading less restrictive only
   * when nothing at all was found before and something is found, and nothing asked, now.
   */
  lemma KnowingMoreRelaxesIff(atlas: Atlas, v: Visitor, w: Visitor, known: seq<string>, now: seq<string>,
                              activity: PolicyEngine.Context, rules: seq<PolicyEngine.Rule>)
    requires KnowsMore(v, w)
    requires forall j :: j in known <==> InPlay(atlas, v, j)
    requires forall j :: j in now <==> InPlay(atlas, w, j)
    ensures forall j :: j in known ==> j in now
    ensures var before, after := activity.(jurisdictions := known), activity.(jurisdictions := now);
            PolicyEngine.Severity(PolicyEngine.Decide(after, rules).outcome) > PolicyEngine.Severity(PolicyEngine.Decide(before, rules).outcome)
            <==> !PolicyVerdicts.HasFinding(before, rules) && PolicyVerdicts.HasFinding(after, rules) && !PolicyVerdicts.SomeAsks(after, rules)
  {
    forall j | j in known ensures j in now {
      if s :| s in v.signals && PointsTo(atlas, s, j) {
        assert s in w.signals;
      }
    }
    PolicyVerdicts.WideningRelaxesIff(activity.(jurisdictions := known), activity.(jurisdictions := now), rules);
  }

  /** Nothing in the answer depends on the order the observations came in. */
  lemma SignalOrderIsIrrelevant(atlas: Atlas, v: Visitor, w: Visitor, a: seq<string>, b: seq<string>)
    requires multiset(v.signals) == multiset(w.signals) && multiset(v.asserted) == multiset(w.asserted)
    requires Ascending(a) && (forall j :: j in a <==> InPlay(atlas, v, j))
    requires Ascending(b) && (forall j :: j in b <==> InPlay(atlas, w, j))
    ensures a == b
    ensures forall j, c, d :: BestSupport(atlas, v, j, c) && BestSupport(atlas, w, j, d) ==> c == d
    ensures Disagree(atlas, v.signals) <==> Disagree(atlas, w.signals)
  {
    SameElements(v.signals, w.signals);
    SameElements(v.asserted, w.asserted);
    forall j: string ensures j in a <==> j in b {
      assert InPlay(atlas, v, j) <==> InPlay(atlas, w, j);
    }
    LeqOrders();
    SameAscending(a, b, Less);
    forall j: string, c, d | BestSupport(atlas, v, j, c) && BestSupport(atlas, w, j, d) ensures c == d {
      SameSupport(atlas, v, w, j, c);
      SameSupport(atlas, v, w, j, d);
    }
  }

  lemma SameSupport(atlas: Atlas, v: Visitor, w: Visitor, j: string, c: Confidence)
    requires (forall s :: s in v.signals <==> s in w.signals) && (forall x :: x in v.asserted <==> x in w.asserted)
    ensures Supported(atlas, v, j, c) <==> Supported(atlas, w, j, c)
  {
  }
}
