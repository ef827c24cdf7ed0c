/** Two ways of matching a host against known suffixes. */
module Hosts {
  // Label by label, as the tracker catalogue does, and rule by rule in alphabetical order, as
  // enforcement does. Vendors must come out the same.

  import opened Text
  import opened Sequences

  // ---- Normalised hosts -----------------------------------------------------

  /** Trimmed, in lower case, without one trailing dot. */
  function Normalise(host: string): string {
    var t := Lower(Trim(host));
    if t != "" && t[|t| - 1] == '.' then t[..|t| - 1] else t
  }

  /** One dot is taken off, and only a last one. */
  lemma NormaliseMeans(host: string)
    ensures var t, n := Lower(Trim(host)), Normalise(host);
            (t == n + "." || t == n) && (t == n ==> n == "" || n[|n| - 1] != '.')
  {
    var t := Lower(Trim(host));
    if t != "" && t[|t| - 1] == '.' { assert t == t[..|t| - 1] + "."; }
  }

  predicate EndsWith(s: string, suffix: string) {
    |suffix| <= |s| && s[|s| - |suffix|..] == suffix
  }

  /** The host itself, or a subdomain of it. */
  predicate Under(host: string, pattern: string) {
    host == pattern || EndsWith(host, "." + pattern)
  }

  predicate HostMatches(host: string, pattern: string) {
    var h, p := Normalise(host), Normalise(pattern);
    h != "" && p != "" && Under(h, p)
  }

  // ---- Labels ---------------------------------------------------------------

  function Split(s: string): (labels: seq<string>)
    ensures |labels| >= 1
  {
    if s == "" then [""]
    else if s[0] == '.' then [""] + Split(s[1..])
    else var rest := Split(s[1..]); [[s[0]] + rest[0]] + rest[1..]
  }

  lemma {:induction false} JoinSplit(s: string)
    ensures Join(Split(s), '.') == s
    ensures Free(Split(s), '.')
  {
    if s != "" {
      JoinSplit(s[1..]);
      var rest := Split(s[1..]);
      if s[0] == '.' {
        assert Split(s)[1..] == rest;
      } else {
        JoinOntoFirst(s[0], rest);
      }
      assert s == [s[0]] + s[1..];
    }
  }

  lemma JoinOntoFirst(c: char, labels: seq<string>)
    requires labels != [] && c != '.' && Free(labels, '.')
    ensures Join([[c] + labels[0]] + labels[1..], '.') == [c] + Join(labels, '.')
    ensures Free([[c] + labels[0]] + labels[1..], '.')
  {
    var longer := [[c] + labels[0]] + labels[1..];
    assert longer[1..] == labels[1..];
    if |labels| > 1 {
      assert [c] + (labels[0] + ['.'] + Join(labels[1..], '.')) == [c] + labels[0] + ['.'] + Join(labels[1..], '.');
    }
  }

  /** Joining all but the first `i` labels. */
  function Suffix(s: string, i: nat): string
    requires i < |Split(s)|
  {
    Join(Split(s)[i..], '.')
  }

  ghost predicate LaterSuffix(s: string, p: string) {
    exists i: nat :: 1 <= i < |Split(s)| && Suffix(s, i) == p
  }

  /** Ending in a dot and `p` is being what remains when some labels are taken off. */
  lemma {:induction false} EndsWithIsLaterSuffix(s: string, p: string)
    ensures EndsWith(s, "." + p) <==> LaterSuffix(s, p)
  {
    if s != "" {
      var t := s[1..];
      EndsWithIsLaterSuffix(t, p);
      JoinSplit(t);
      assert Split(t)[0..] == Split(t);
      assert s == [s[0]] + t;
      EndsWithTail(s, p);
      if s[0] == '.' {
        assert forall i: nat :: 1 <= i < |Split(s)| ==> Split(s)[i..] == Split(t)[i - 1..];
        LaterFromDot(s, p);
      } else {
        assert forall i: nat :: 1 <= i < |Split(s)| ==> Split(s)[i..] == Split(t)[i..];
        LaterFromOther(s, p);
      }
    } else {
      assert !EndsWith(s, "." + p);
    }
  }

  lemma EndsWithTail(s: string, p: string)
    requires s != ""
    ensures EndsWith(s, "." + p) <==> (s[0] == '.' && s[1..] == p) || EndsWith(s[1..], "." + p)
  {
    var suffix := "." + p;
    if |suffix| == |s| {
      assert s[0..] == s && suffix[0] == '.' && suffix[1..] == p;
      assert s == [s[0]] + s[1..];
    } else if |suffix| < |s| {
      assert s[|s| - |suffix|..] == s[1..][|s[1..]| - |suffix|..];
    }
  }

  lemma LaterFromDot(s: string, p: string)
    requires s != "" && s[0] == '.'
    ensures LaterSuffix(s, p) <==> s[1..] == p || LaterSuffix(s[1..], p)
  {
    var t := s[1..];
    JoinSplit(t);
    assert Split(t)[0..] == Split(t);
    if LaterSuffix(s, p) {
      var i: nat :| 1 <= i < |Split(s)| && Suffix(s, i) == p;
      assert Split(s)[i..] == Split(t)[i - 1..];
      if i > 1 { assert Suffix(t, i - 1) == p; }
    }
    if t == p {
      assert Split(s)[1..] == Split(t);
      assert Suffix(s, 1) == p;
    }
    if LaterSuffix(t, p) {
      var i: nat :| 1 <= i < |Split(t)| && Suffix(t, i) == p;
      assert Split(s)[i + 1..] == Split(t)[i..];
      assert Suffix(s, i + 1) == p;
    }
  }

  lemma LaterFromOther(s: string, p: string)
    requires s != "" && s[0] != '.'
    ensures LaterSuffix(s, p) <==> LaterSuffix(s[1..], p)
  {
    var t := s[1..];
    if LaterSuffix(s, p) {
      var i: nat :| 1 <= i < |Split(s)| && Suffix(s, i) == p;
      assert Split(s)[i..] == Split(t)[i..];
      assert Suffix(t, i) == p;
    }
    if LaterSuffix(t, p) {
      var i: nat :| 1 <= i < |Split(t)| && Suffix(t, i) == p;
      assert Split(s)[i..] == Split(t)[i..];
      assert Suffix(s, i) == p;
    }
  }

  /** A name of at least two labels. */
  predicate Dotted(p: string) {
    '.' in p
  }

  lemma SuffixIsDotted(s: string, i: nat)
    requires i < |Split(s)|
    ensures Dotted(Suffix(s, i)) <==> i < |Split(s)| - 1
  {
    JoinSplit(s);
    var labels := Split(s)[i..];
    JoinCount(labels, '.');
    assert Free(labels, '.');
    CountAllZero(labels, '.');
    CountZero(Suffix(s, i), '.');
  }

  /** The suffixes the catalogue looks up: all that leave at least two labels. */
  ghost predicate Tried(host: string, p: string) {
    exists i: nat :: i < |Split(host)| - 1 && Suffix(host, i) == p
  }

  /** Suffix matching accepts a dotted name exactly when label-by-label lookup tries it. */
  lemma MatchedIffTried(host: string, p: string)
    requires Dotted(p)
    ensures Under(host, p) <==> Tried(host, p)
  {
    JoinSplit(host);
    assert Split(host)[0..] == Split(host);
    assert Suffix(host, 0) == host;
    EndsWithIsLaterSuffix(host, p);
    forall i: nat | i < |Split(host)| && Suffix(host, i) == p ensures i < |Split(host)| - 1 {
      SuffixIsDotted(host, i);
    }
    if host == p {
      assert Suffix(host, 0) == p;
    }
    if LaterSuffix(host, p) {
      var i: nat :| 1 <= i < |Split(host)| && Suffix(host, i) == p;
      assert i < |Split(host)| - 1;
    }
  }

  /** A host matches a pattern when taking labels off its front, or none, leaves the pattern, which is not empty. */
  lemma MatchesMeans(host: string, pattern: string)
    ensures var h, p := Normalise(host), Normalise(pattern);
            HostMatches(host, pattern) <==> p != "" && exists i: nat :: i < |Split(h)| && Suffix(h, i) == p
  {
    var h, p := Normalise(host), Normalise(pattern);
    JoinSplit(h);
    assert Split(h)[0..] == Split(h);
    assert Suffix(h, 0) == h;
    EndsWithIsLaterSuffix(h, p);
    if i: nat :| i < |Split(h)| && Suffix(h, i) == p {
      assert i == 0 || LaterSuffix(h, p);
    }
  }

  // ---- The catalogue --------------------------------------------------------

  datatype Entry = Entry(vendor: string, category: string, country: string)

  type Catalogue = map<string, Entry>

  /** Keys are written as they are looked up: normalised, and with a dot. */
  predicate WellKeyed(c: Catalogue) {
    forall k :: k in c ==> Dotted(k) && Normalise(k) == k
  }

  /** The longest key of the catalogue the host is under. */
  predicate IsLongestKey(c: Catalogue, host: string, k: string) {
    k in c && Under(host, k) && forall other :: other in c && Under(host, other) ==> |other| <= |k|
  }

  lemma SuffixShrinks(host: string, i: nat, j: nat)
    requires i <= j < |Split(host)|
    ensures |Suffix(host, j)| <= |Suffix(host, i)|
    decreases j - i
  {
    if i < j {
      assert Split(host)[i..][1..] == Split(host)[i + 1..];
      SuffixShrinks(host, i + 1, j);
    }
  }

  /** `classifyHost`: from most to least specific, the first catalogue key wins. */
  method ClassifyHost(c: Catalogue, host: string) returns (key: Option<string>)
    requires WellKeyed(c)
    ensures key.Some? ==> IsLongestKey(c, Normalise(host), key.value)
    ensures key.None? <==> forall k :: k in c ==> !HostMatches(host, k)
  {
    var normalised := Normalise(host);
    if normalised == "" {
      return None;
    }
    var labels := Split(normalised);
    for i := 0 to |labels| - 1
      invariant forall j: nat :: j < i ==> Suffix(normalised, j) !in c
    {
      var candidate := Join(labels[i..], '.');
      assert candidate == Suffix(normalised, i);
      if candidate in c {
        FirstTriedIsLongest(c, normalised, i);
        assert HostMatches(host, candidate);
        return Some(candidate);
      }
    }
    forall k | k in c ensures !HostMatches(host, k) {
      MatchedIffTried(normalised, k);
    }
    key := None;
  }

  lemma FirstTriedIsLongest(c: Catalogue, host: string, i: nat)
    requires WellKeyed(c) && i < |Split(host)| - 1 && Suffix(host, i) in c
    requires forall j: nat :: j < i ==> Suffix(host, j) !in c
    ensures IsLongestKey(c, host, Suffix(host, i))
    ensures Suffix(host, i) != ""
  {
    MatchedIffTried(host, Suffix(host, i));
    forall other | other in c && Under(host, other) ensures |other| <= |Suffix(host, i)| {
      MatchedIffTried(host, other);
      var j: nat :| j < |Split(host)| - 1 && Suffix(host, j) == other;
      SuffixShrinks(host, i, j);
    }
  }

  // ---- Enforcement rules ----------------------------------------------------

  datatype Action = Allow | RequireConsent | Block
  datatype Advice = DoAllow | DoRequireConsent | DoBlock | Ignore | Review
  datatype Recommendation = Recommendation(vendor: string, purpose: Option<string>, action: Advice)
  datatype Rule = Rule(host: string, vendor: string, purpose: Option<string>, action: Action)

  function ActionOf(a: Advice): Option<Action> {
    match a
    case DoAllow => Some(Allow)
    case DoRequireConsent => Some(RequireConsent)
    case DoBlock => Some(Block)
    case Ignore => None
    case Review => None
  }

  /** The catalogue in the order its entries are written. */
  type Entries = seq<(string, Entry)>

  predicate KnownAs(e: (string, Entry), vendor: string) {
    Lower(Trim(vendor)) != "" && Lower(e.1.vendor) == Lower(Trim(vendor))
  }

  function HostsForVendor(entries: Entries, vendor: string): seq<string> {
    Sort(Map(Filter(entries, (e: (string, Entry)) => KnownAs(e, vendor)), (e: (string, Entry)) => e.0), Leq)
  }

  predicate ByHost(a: Rule, b: Rule) {
    Leq(a.host, b.host)
  }

  /** The rules one recommendation turns into: none where the advice is to ignore or to review. */
  function RulesOf(entries: Entries, r: Recommendation): seq<Rule> {
    if ActionOf(r.action).None? then []
    else Map(HostsForVendor(entries, r.vendor), (h: string) => Rule(h, r.vendor, r.purpose, ActionOf(r.action).value))
  }

  function AllRules(entries: Entries, recommendations: seq<Recommendation>): seq<Rule> {
    if recommendations == [] then []
    else AllRules(entries, recommendations[..|recommendations| - 1]) + RulesOf(entries, recommendations[|recommendations| - 1])
  }

  function Enforcement(entries: Entries, recommendations: seq<Recommendation>): seq<Rule> {
    Sort(AllRules(entries, recommendations), ByHost)
  }

  /** One rule for each host of the vendor. */
  method PushRules(entries: Entries, r: Recommendation, action: Action, before: seq<Rule>) returns (rules: seq<Rule>)
    requires ActionOf(r.action) == Some(action)
    ensures rules == before + RulesOf(entries, r)
  {
    rules := before;
    var hosts := HostsForVendor(entries, r.vendor);
    ghost var added := RulesOf(entries, r);
    for j := 0 to |hosts|
      invariant rules == before + added[..j]
    {
      assert added[..j + 1] == added[..j] + [added[j]];
      rules := rules + [Rule(hosts[j], r.vendor, r.purpose, action)];
    }
    assert added[..|hosts|] == added;
  }

  method EnforcementFrom(entries: Entries, recommendations: seq<Recommendation>) returns (rules: seq<Rule>)
    ensures rules == Enforcement(entries, recommendations)
  {
    rules := [];
    for i := 0 to |recommendations|
      invariant rules == AllRules(entries, recommendations[..i])
    {
      assert recommendations[..i + 1][..i] == recommendations[..i];
      var r := recommendations[i];
      var action := ActionOf(r.action);
      if action.None? {
        assert rules == rules + [];
        continue;
      }
      rules := PushRules(entries, r, action.value, rules);
    }
    assert recommendations[..|recommendations|] == recommendations;
    rules := Sort(rules, ByHost);
  }

  /** A rule exists for a host exactly when some recommendation to act names a vendor known by it. */
  lemma {:induction false} RuleExistsIff(entries: Entries, recommendations: seq<Recommendation>, rule: Rule)
    ensures rule in AllRules(entries, recommendations)
            <==> exists r :: r in recommendations && Yields(entries, r, rule)
  {
    if recommendations != [] {
      var rest, last := recommendations[..|recommendations| - 1], recommendations[|recommendations| - 1];
      assert recommendations == rest + [last];
      RuleExistsIff(entries, rest, rule);
      YieldsIff(entries, last, rule);
    }
  }

  /** The advice to do something: allow, gate or block; to ignore or review is none. */
  predicate Advises(advice: Advice, action: Action) {
    (advice == DoAllow && action == Allow) || (advice == DoRequireConsent && action == RequireConsent) || (advice == DoBlock && action == Block)
  }

  /** The entry is of this vendor, by its name in whatever case and padding; a blank name is nobody's. */
  predicate Belongs(e: (string, Entry), vendor: string) {
    !Blank(vendor) && Lower(e.1.vendor) == Lower(Trim(vendor))
  }

  lemma BelongsIs(e: (string, Entry), vendor: string)
    ensures KnownAs(e, vendor) <==> Belongs(e, vendor)
  {
    TrimBlank(vendor);
    if Trim(vendor) != "" { assert Lower(Trim(vendor)) != ""; }
  }

  predicate Yields(entries: Entries, r: Recommendation, rule: Rule) {
    && Advises(r.action, rule.action) && rule.vendor == r.vendor && rule.purpose == r.purpose
    && ListedFor(entries, r.vendor, rule.host)
  }

  /** The rules handed to the browser: all that some recommendation yields and no other, in the order of their hosts. */
  lemma EnforcementIs(entries: Entries, recommendations: seq<Recommendation>)
    ensures var rules := Enforcement(entries, recommendations);
            && (forall rule :: rule in rules <==> exists r :: r in recommendations && Yields(entries, r, rule))
            && (forall i, j :: 0 <= i < j < |rules| ==> Leq(rules[i].host, rules[j].host))
  {
    LeqOrders();
    assert TotalPreorder(ByHost);
    SortSorts(AllRules(entries, recommendations), ByHost);
    forall rule ensures rule in AllRules(entries, recommendations) <==> exists r :: r in recommendations && Yields(entries, r, rule) {
      RuleExistsIff(entries, recommendations, rule);
    }
  }

  predicate ListedFor(entries: Entries, vendor: string, host: string) {
    exists e :: e in entries && e.0 == host && Belongs(e, vendor)
  }

  lemma HostsAre(entries: Entries, vendor: string, host: string)
    ensures host in HostsForVendor(entries, vendor) <==> ListedFor(entries, vendor, host)
  {
    var known := (e: (string, Entry)) => KnownAs(e, vendor);
    var name := (e: (string, Entry)) => e.0;
    var kept := Filter(entries, known);
    LeqOrders();
    SortSorts(Map(kept, name), Leq);
    if host in Map(kept, name) {
      var j := IndexOf(Map(kept, name), host);
      FilterMember(entries, known, kept[j]);
      BelongsIs(kept[j], vendor);
    }
    if e :| e in entries && e.0 == host && Belongs(e, vendor) {
      BelongsIs(e, vendor);
      FilterMember(entries, known, e);
      var j := IndexOf(kept, e);
      assert Map(kept, name)[j] == host;
    }
  }

  lemma AdvisesIs(advice: Advice, action: Action)
    ensures ActionOf(advice) == Some(action) <==> Advises(advice, action)
  {
  }

  lemma YieldsIff(entries: Entries, r: Recommendation, rule: Rule)
    ensures rule in RulesOf(entries, r) <==> Yields(entries, r, rule)
  {
    AdvisesIs(r.action, rule.action);
    HostsAre(entries, r.vendor, rule.host);
    if ActionOf(r.action).Some? {
      var make := (h: string) => Rule(h, r.vendor, r.purpose, ActionOf(r.action).value);
      var hosts := HostsForVendor(entries, r.vendor);
      if rule in RulesOf(entries, r) {
        var i := IndexOf(RulesOf(entries, r), rule);
        assert rule == make(hosts[i]);
      }
      if Yields(entries, r, rule) {
        var i := IndexOf(hosts, rule.host);
        assert RulesOf(entries, r)[i] == make(hosts[i]) == rule;
      }
    }
  }

  // ---- First match against longest match ------------------------------------

  function FirstWhere(rules: seq<Rule>, hit: string -> bool): Option<Rule> {
    if rules == [] then None else if hit(rules[0].host) then Some(rules[0]) else FirstWhere(rules[1..], hit)
  }

  function FirstMatch(rules: seq<Rule>, host: string): Option<Rule> {
    FirstWhere(rules, (pattern: string) => HostMatches(host, pattern))
  }

  predicate NormalRules(rules: seq<Rule>) {
    forall r :: r in rules ==> Dotted(r.host) && Normalise(r.host) == r.host
  }

  /** The first match is a rule for the longest host the rules cover. */
  predicate FirstIsLongest(rules: seq<Rule>, host: string) {
    match FirstMatch(rules, host)
    case None => true
    case Some(first) => forall r :: r in rules && HostMatches(host, r.host) ==> |r.host| <= |first.host|
  }

  /** A covered host that lies under another covered host sorts before it. */
  predicate NestedFirst(rules: seq<Rule>) {
    forall a, b :: a in rules && b in rules && EndsWith(a.host, "." + b.host) ==> Less(a.host, b.host)
  }

  lemma {:induction false} FirstWhereIsFirst(rules: seq<Rule>, hit: string -> bool) returns (k: nat)
    ensures k <= |rules| && forall j :: 0 <= j < k ==> !hit(rules[j].host)
    ensures if k < |rules| then hit(rules[k].host) && FirstWhere(rules, hit) == Some(rules[k]) else FirstWhere(rules, hit) == None
  {
    if rules == [] || hit(rules[0].host) {
      k := 0;
    } else {
      k := FirstWhereIsFirst(rules[1..], hit);
      k := k + 1;
    }
  }

  lemma FirstMatchIsFirst(rules: seq<Rule>, host: string) returns (k: nat)
    requires exists r :: r in rules && HostMatches(host, r.host)
    ensures k < |rules| && FirstMatch(rules, host) == Some(rules[k]) && HostMatches(host, rules[k].host)
    ensures forall j :: 0 <= j < k ==> !HostMatches(host, rules[j].host)
  {
    k := FirstWhereIsFirst(rules, (pattern: string) => HostMatches(host, pattern));
    var r :| r in rules && HostMatches(host, r.host);
    var j := IndexOf(rules, r);
  }

  lemma NoFirstMatch(rules: seq<Rule>, host: string)
    ensures FirstMatch(rules, host).None? <==> forall r :: r in rules ==> !HostMatches(host, r.host)
  {
    var k := FirstWhereIsFirst(rules, (pattern: string) => HostMatches(host, pattern));
    assert k < |rules| ==> rules[k] in rules;
  }

  /** Two suffixes of one host: the longer is under the shorter. */
  lemma SuffixesNest(host: string, a: string, b: string)
    requires Under(host, a) && Under(host, b) && |b| <= |a|
    ensures a == b || EndsWith(a, "." + b)
  {
    assert host[|host| - |a|..] == a by { TailOf(host, a); }
    assert host[|host| - |b|..] == b by { TailOf(host, b); }
    if |a| == |b| {
    } else {
      var dotted := "." + b;
      assert host != b;
      assert host[|host| - |dotted|..] == dotted;
      assert a[|a| - |dotted|..] == host[|host| - |dotted|..];
    }
  }

  lemma TailOf(host: string, a: string)
    requires Under(host, a)
    ensures |a| <= |host| && host[|host| - |a|..] == a
  {
    if host == a {
      assert host[0..] == host;
    } else {
      var dotted := "." + a;
      assert host[|host| - |a|..] == host[|host| - |dotted|..][1..];
      assert dotted[1..] == a;
    }
  }

  /**
   * Alphabetical first match agrees with longest match on every host exactly when every nested host
   * sorts before the one it is nested in.
   */
  lemma FirstIsLongestIff(rules: seq<Rule>)
    requires Sorted(rules, ByHost) && NormalRules(rules)
    ensures (forall host :: FirstIsLongest(rules, host)) <==> NestedFirst(rules)
  {
    if NestedFirst(rules) {
      forall host ensures FirstIsLongest(rules, host) {
        NestedFirstSuffices(rules, host);
      }
    }
    if forall host :: FirstIsLongest(rules, host) {
      forall a, b | a in rules && b in rules && EndsWith(a.host, "." + b.host) ensures Less(a.host, b.host) {
        assert FirstIsLongest(rules, a.host);
        NestedFirstNeeded(rules, a, b);
      }
    }
  }

  lemma NestedFirstSuffices(rules: seq<Rule>, host: string)
    requires Sorted(rules, ByHost) && NormalRules(rules) && NestedFirst(rules)
    ensures FirstIsLongest(rules, host)
  {
    NoFirstMatch(rules, host);
    if FirstMatch(rules, host).Some? {
      var k := FirstMatchIsFirst(rules, host);
      forall r | r in rules && HostMatches(host, r.host) ensures |r.host| <= |rules[k].host| {
        var j := IndexOf(rules, r);
        LeqOrders();
        assert k < j ==> ByHost(rules[k], rules[j]);
        if |r.host| > |rules[k].host| {
          SuffixesNest(Normalise(host), r.host, rules[k].host);
        }
      }
    }
  }

  lemma NestedFirstNeeded(rules: seq<Rule>, a: Rule, b: Rule)
    requires Sorted(rules, ByHost) && NormalRules(rules)
    requires a in rules && b in rules && EndsWith(a.host, "." + b.host)
    requires FirstIsLongest(rules, a.host)
    ensures Less(a.host, b.host)
  {
    NormalHostsMatch(rules, a, b);
    var k := FirstMatchIsFirst(rules, a.host);
    LongestIsItself(rules, a, rules[k]);
    var j := IndexOf(rules, b);
    SortsBefore(rules, k, j);
  }

  lemma NormalHostsMatch(rules: seq<Rule>, a: Rule, b: Rule)
    requires NormalRules(rules) && a in rules && b in rules && EndsWith(a.host, "." + b.host)
    ensures HostMatches(a.host, b.host) && HostMatches(a.host, a.host) && a.host != b.host
  {
  }

  lemma LongestIsItself(rules: seq<Rule>, a: Rule, first: Rule)
    requires NormalRules(rules) && a in rules && first in rules
    requires HostMatches(a.host, first.host) && |a.host| <= |first.host|
    ensures first.host == a.host
  {
    TailOf(a.host, first.host);
  }

  lemma SortsBefore(rules: seq<Rule>, k: nat, j: nat)
    requires Sorted(rules, ByHost) && k <= j < |rules| && rules[k].host != rules[j].host
    ensures Less(rules[k].host, rules[j].host)
  {
    assert k < j ==> ByHost(rules[k], rules[j]);
  }

  ghost predicate Lists(entries: Entries, c: Catalogue) {
    forall k, e :: (k, e) in entries <==> k in c && c[k] == e
  }

  /** Every catalogue host is covered by a rule, and only catalogue hosts are. */
  predicate CoversCatalogue(rules: seq<Rule>, c: Catalogue) {
    && (forall k :: k in c ==> exists r :: r in rules && r.host == k)
    && (forall r :: r in rules ==> r.host in c && Lower(Trim(r.vendor)) == Lower(c[r.host].vendor))
  }

  /**
   * With a rule for every catalogue vendor, enforcement and classification name the same vendor for
   * every host.
   */
  lemma EnforcementFollowsClassification(c: Catalogue, rules: seq<Rule>, host: string, key: Option<string>)
    requires WellKeyed(c) && Sorted(rules, ByHost) && CoversCatalogue(rules, c) && NestedFirst(rules)
    requires key.Some? ==> IsLongestKey(c, Normalise(host), key.value)
    requires key.None? <==> forall k :: k in c ==> !HostMatches(host, k)
    ensures FirstMatch(rules, host).Some? <==> key.Some?
    ensures key.Some? ==> FirstMatch(rules, host).value.host == key.value
                          && Lower(Trim(FirstMatch(rules, host).value.vendor)) == Lower(c[key.value].vendor)
  {
    NoFirstMatch(rules, host);
    if key.Some? {
      var r :| r in rules && r.host == key.value;
      assert HostMatches(host, r.host);
      var k := FirstMatchIsFirst(rules, host);
      assert rules[k] in rules;
      NestedFirstSuffices(rules, host);
      LongestRuleIsLongestKey(c, rules, host, key.value, r, rules[k]);
    }
  }

  lemma LongestRuleIsLongestKey(c: Catalogue, rules: seq<Rule>, host: string, key: string, r: Rule, first: Rule)
    requires WellKeyed(c) && CoversCatalogue(rules, c) && IsLongestKey(c, Normalise(host), key)
    requires r in rules && r.host == key && first in rules
    requires HostMatches(host, first.host) && HostMatches(host, r.host) && |r.host| <= |first.host|
    ensures first.host == key && Lower(Trim(first.vendor)) == Lower(c[key].vendor)
  {
    SuffixesNest(Normalise(host), first.host, r.host);
  }

  /** The recommendations that act on every vendor of the catalogue give rules that cover it. */
  lemma ActingOnEveryVendorCovers(entries: Entries, c: Catalogue, recommendations: seq<Recommendation>)
    requires Lists(entries, c) && WellKeyed(c)
    requires forall k :: k in c ==> exists r :: r in recommendations && ActionOf(r.action).Some? && KnownAs((k, c[k]), r.vendor)
    ensures CoversCatalogue(Enforcement(entries, recommendations), c)
    ensures Sorted(Enforcement(entries, recommendations), ByHost)
  {
    var all := AllRules(entries, recommendations);
    LeqOrders();
    assert TotalPreorder(ByHost);
    SortSorts(all, ByHost);
    forall k | k in c ensures exists r :: r in Enforcement(entries, recommendations) && r.host == k {
      var r :| r in recommendations && ActionOf(r.action).Some? && KnownAs((k, c[k]), r.vendor);
      var rule := Rule(k, r.vendor, r.purpose, ActionOf(r.action).value);
      BelongsIs((k, c[k]), r.vendor);
      assert (k, c[k]) in entries;
      assert Yields(entries, r, rule);
      RuleExistsIff(entries, recommendations, rule);
      assert rule in Enforcement(entries, recommendations);
    }
    forall rule | rule in Enforcement(entries, recommendations)
      ensures rule.host in c && Lower(Trim(rule.vendor)) == Lower(c[rule.host].vendor)
    {
      RuleExistsIff(entries, recommendations, rule);
      var r :| r in recommendations && Yields(entries, r, rule);
      var e :| e in entries && e.0 == rule.host && Belongs(e, r.vendor);
      TrimBlank(r.vendor);
      assert (e.0, e.1) in entries;
    }
  }
}
