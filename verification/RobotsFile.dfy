/**
 * Reading a robots.txt file line by line into groups, and picking the group that speaks to us. A line
 * is cut at its comment, split at its first colon and trimmed; consecutive user-agent lines share one
 * group, and rules go to the group last opened.
 */
module RobotsFile {
  import opened Text
  import opened Robots

  datatype Group = Group(agents: seq<string>, rules: seq<Robots.Rule>, crawlDelay: Option<nat>)

  // ---- Lines ----------------------------------------------------------------

  /** The field and value of a line, once its comment is cut off; nothing for a blank or malformed line. */
  function FieldOf(line: string): Option<(string, string)> {
    FieldOfText(Trim(Before(line, '#')))
  }

  function FieldOfText(text: string): Option<(string, string)> {
    var name := Before(text, ':');
    if text == "" || |name| == |text| then None
    else Some((Lower(Trim(name)), Trim(text[|name| + 1..])))
  }

  // ---- Groups ---------------------------------------------------------------

  datatype State = State(groups: seq<Group>, lastLineWasAgent: bool, sitemaps: seq<string>)

  const NOTHING := State([], false, [])

  function Last(s: State): Group
    requires s.groups != []
  {
    s.groups[|s.groups| - 1]
  }

  function WithLast(s: State, g: Group): State
    requires s.groups != []
  {
    s.(groups := s.groups[|s.groups| - 1 := g])
  }

  /** Consecutive user-agent lines share one group; anything else closes the run of agents. */
  function AgentLine(s: State, agent: string): State {
    var open := if s.groups == [] || !s.lastLineWasAgent then s.(groups := s.groups + [Group([], [], None)]) else s;
    WithLast(open, Last(open).(agents := Last(open).agents + [agent])).(lastLineWasAgent := true)
  }

  function RuleLine(s: State, rule: Robots.Rule): State {
    var closed := s.(lastLineWasAgent := false);
    if s.groups == [] || rule.path == "" then closed
    else WithLast(closed, Last(s).(rules := Last(s).rules + [rule]))
  }

  function OtherLine(number: string -> Option<nat>, s: State, field: string, value: string): State {
    var closed := s.(lastLineWasAgent := false);
    if s.groups == [] then closed
    else if field == "crawl-delay" then
      (if number(value).Some? then WithLast(closed, Last(s).(crawlDelay := number(value))) else closed)
    else if field == "sitemap" then closed.(sitemaps := s.sitemaps + [value])
    else closed
  }

  function TakeLine(number: string -> Option<nat>, s: State, line: string): State {
    match FieldOf(line)
    case None => s
    case Some((field, value)) =>
      if field == "user-agent" then AgentLine(s, Lower(value))
      else if field == "disallow" then RuleLine(s, Robots.Rule(false, value))
      else if field == "allow" then RuleLine(s, Robots.Rule(true, value))
      else OtherLine(number, s, field, value)
  }

  function Parse(number: string -> Option<nat>, lines: seq<string>): State {
    if lines == [] then NOTHING else TakeLine(number, Parse(number, lines[..|lines| - 1]), lines[|lines| - 1])
  }

  predicate PartAt(s: string, i: nat, part: string) {
    i + |part| <= |s| && s[i..i + |part|] == part
  }

  predicate Contains(s: string, part: string) {
    exists i: nat :: i <= |s| && PartAt(s, i, part)
  }

  /** Some agent of the group, other than the wildcard, is part of our name. */
  predicate NamesUs(g: Group, agent: string) {
    exists i :: 0 <= i < |g.agents| && g.agents[i] != "*" && Contains(agent, g.agents[i])
  }

  predicate First(groups: seq<Group>, k: nat, wanted: Group -> bool) {
    k < |groups| && wanted(groups[k]) && forall j :: 0 <= j < k ==> !wanted(groups[j])
  }

  ghost predicate Inside(agent: string, name: string) {
    exists before: string, after: string :: agent == before + name + after
  }

  /** A group is ours when one of its names, other than the star, is part of our own. */
  lemma NamesUsMeans(g: Group, agent: string)
    ensures NamesUs(g, agent) <==> exists name :: name in g.agents && name != "*" && Inside(agent, name)
  {
    if NamesUs(g, agent) {
      var i :| 0 <= i < |g.agents| && g.agents[i] != "*" && Contains(agent, g.agents[i]);
      var at: nat :| at <= |agent| && PartAt(agent, at, g.agents[i]);
      assert agent == agent[..at] + g.agents[i] + agent[at + |g.agents[i]|..];
      assert Inside(agent, g.agents[i]);
    }
    if name :| name in g.agents && name != "*" && Inside(agent, name) {
      var before, after :| agent == before + name + after;
      var i :| 0 <= i < |g.agents| && g.agents[i] == name;
      assert PartAt(agent, |before|, name);
    }
  }

  datatype Policy = Policy(rules: seq<Robots.Rule>, crawlDelay: Option<nat>, sitemaps: seq<string>)

  function PolicyOf(g: Group, sitemaps: seq<string>): Policy {
    Policy(g.rules, g.crawlDelay, sitemaps)
  }

  predicate IsWildcard(g: Group) { "*" in g.agents }

  /** The first group that is for everybody. */
  predicate FirstForAll(groups: seq<Group>, k: nat) {
    k < |groups| && "*" in groups[k].agents && forall j :: 0 <= j < k ==> "*" !in groups[j].agents
  }

  /** The first group that names us decides; failing that the first wildcard group; failing that nothing is forbidden. */
  ghost predicate Decides(s: State, agent: string, p: Policy) {
    if exists g :: g in s.groups && NamesUs(g, agent)
    then exists k: nat :: First(s.groups, k, (g: Group) => NamesUs(g, agent)) && p == PolicyOf(s.groups[k], s.sitemaps)
    else if exists g :: g in s.groups && "*" in g.agents
    then exists k: nat :: FirstForAll(s.groups, k) && p == PolicyOf(s.groups[k], s.sitemaps)
    else p == Policy([], None, s.sitemaps)
  }

  method FindFirst(groups: seq<Group>, wanted: Group -> bool) returns (k: nat)
    ensures k <= |groups| && (k < |groups| ==> First(groups, k, wanted))
    ensures k == |groups| <==> forall g :: g in groups ==> !wanted(g)
  {
    k := 0;
    while k < |groups| && !wanted(groups[k])
      invariant k <= |groups| && forall j :: 0 <= j < k ==> !wanted(groups[j])
    {
      k := k + 1;
    }
  }

  method TakeAgent(s: State, agent: string) returns (groups: seq<Group>)
    ensures groups == AgentLine(s, agent).groups
  {
    groups := s.groups;
    if groups == [] || !s.lastLineWasAgent {
      groups := groups + [Group([], [], None)];
    }
    var current := groups[|groups| - 1];
    groups := groups[|groups| - 1 := current.(agents := current.agents + [agent])];
  }

  /** The fields other than `user-agent`, which all act on the group last opened. */
  method TakeField(number: string -> Option<nat>, s: State, name: string, value: string)
    returns (groups: seq<Group>, sitemaps: seq<string>)
    ensures name == "disallow" || name == "allow" ==> State(groups, false, sitemaps) == RuleLine(s, Robots.Rule(name == "allow", value))
    ensures name != "disallow" && name != "allow" ==> State(groups, false, sitemaps) == OtherLine(number, s, name, value)
  {
    groups, sitemaps := s.groups, s.sitemaps;
    if groups == [] {
      return;
    }
    var current := groups[|groups| - 1];
    if name == "disallow" || name == "allow" {
      if value != "" {
        groups := groups[|groups| - 1 := current.(rules := current.rules + [Robots.Rule(name == "allow", value)])];
      }
    } else if name == "crawl-delay" {
      if number(value).Some? {
        groups := groups[|groups| - 1 := current.(crawlDelay := number(value))];
      }
    } else if name == "sitemap" {
      sitemaps := sitemaps + [value];
    }
  }

  method TakeOne(number: string -> Option<nat>, s: State, line: string) returns (t: State)
    ensures t == TakeLine(number, s, line)
  {
    var field := FieldOf(line);
    if field.None? {
      return s;
    }
    var (name, value) := field.value;
    if name == "user-agent" {
      var groups := TakeAgent(s, Lower(value));
      t := State(groups, true, s.sitemaps);
    } else {
      var groups, sitemaps := TakeField(number, s, name, value);
      t := State(groups, false, sitemaps);
    }
  }

  lemma ParseOneMore(number: string -> Option<nat>, lines: seq<string>, i: nat)
    requires i < |lines|
    ensures Parse(number, lines[..i + 1]) == TakeLine(number, Parse(number, lines[..i]), lines[i])
  {
    assert lines[..i + 1][..i] == lines[..i];
  }

  /** `parseRobots` over the lines of the file. */
  method ParseRobots(number: string -> Option<nat>, lines: seq<string>, userAgent: string) returns (p: Policy)
    ensures Decides(Parse(number, lines), Lower(userAgent), p)
  {
    var s := NOTHING;
    for i := 0 to |lines|
      invariant s == Parse(number, lines[..i])
    {
      ParseOneMore(number, lines, i);
      s := TakeOne(number, s, lines[i]);
    }
    assert lines[..|lines|] == lines;
    p := Choose(s, Lower(userAgent));
  }

  method Choose(s: State, agent: string) returns (p: Policy)
    ensures Decides(s, agent, p)
  {
    var exact := FindFirst(s.groups, (g: Group) => NamesUs(g, agent));
    if exact < |s.groups| {
      assert s.groups[exact] in s.groups;
      return PolicyOf(s.groups[exact], s.sitemaps);
    }
    var wildcard := FindFirst(s.groups, IsWildcard);
    if wildcard < |s.groups| {
      assert s.groups[wildcard] in s.groups;
      return PolicyOf(s.groups[wildcard], s.sitemaps);
    }
    p := Policy([], None, s.sitemaps);
  }

  // ---- Writing groups out and reading them back -----------------------------

  /** Text that survives a line: no comment sign, no outer white space, not empty. */
  predicate Plain(s: string) {
    s != "" && '#' !in s && Trim(s) == s
  }

  predicate Writable(g: Group) {
    && g.agents != [] && g.crawlDelay == None
    && (forall i :: 0 <= i < |g.agents| ==> Plain(g.agents[i]) && Lower(g.agents[i]) == g.agents[i])
    && (forall i :: 0 <= i < |g.rules| ==> Plain(g.rules[i].path))
  }

  const USER_AGENT := "User-agent"
  const ALLOW := "Allow"
  const DISALLOW := "Disallow"

  function AgentText(agent: string): string { USER_AGENT + ": " + agent }

  function RuleText(r: Robots.Rule): string { (if r.allow then ALLOW else DISALLOW) + ": " + r.path }

  function AgentTexts(agents: seq<string>): seq<string> {
    if agents == [] then [] else AgentTexts(agents[..|agents| - 1]) + [AgentText(agents[|agents| - 1])]
  }

  function RuleTexts(rules: seq<Robots.Rule>): seq<string> {
    if rules == [] then [] else RuleTexts(rules[..|rules| - 1]) + [RuleText(rules[|rules| - 1])]
  }

  function Written(groups: seq<Group>): seq<string> {
    if groups == [] then []
    else
      var g := groups[|groups| - 1];
      Written(groups[..|groups| - 1]) + AgentTexts(g.agents) + RuleTexts(g.rules)
  }

  /** What reading back makes of one more written group: a group without rules runs into the next. */
  function Joining(s: State, g: Group): State {
    State(if s.groups == [] || !s.lastLineWasAgent then s.groups + [g]
          else s.groups[|s.groups| - 1 := Last(s).(agents := Last(s).agents + g.agents, rules := Last(s).rules + g.rules)],
          g.rules == [], s.sitemaps)
  }

  function JoinedUp(groups: seq<Group>): State {
    if groups == [] then NOTHING else Joining(JoinedUp(groups[..|groups| - 1]), groups[|groups| - 1])
  }

  // ---- A written line reads back --------------------------------------------

  lemma {:induction false} TrimLeftLength(s: string)
    ensures |TrimLeft(s)| <= |s| && (|TrimLeft(s)| == |s| ==> TrimLeft(s) == s && (s != "" ==> !IsSpace(s[0])))
  {
    if s != "" && IsSpace(s[0]) { TrimLeftLength(s[1..]); }
  }

  lemma {:induction false} TrimRightLength(s: string)
    ensures |TrimRight(s)| <= |s| && (|TrimRight(s)| == |s| ==> TrimRight(s) == s && (s != "" ==> !IsSpace(s[|s| - 1])))
  {
    if s != "" && IsSpace(s[|s| - 1]) { TrimRightLength(s[..|s| - 1]); }
  }

  lemma TrimmedEnds(s: string)
    requires Trim(s) == s && s != ""
    ensures !IsSpace(s[0]) && !IsSpace(s[|s| - 1])
  {
    TrimLeftLength(s);
    TrimRightLength(TrimLeft(s));
  }

  lemma LineIsPlain(name: string, value: string, line: string)
    requires line == name + ": " + value && name != "" && value != ""
    requires '#' !in name && '#' !in value && !IsSpace(name[0]) && !IsSpace(value[|value| - 1])
    ensures Trim(Before(line, '#')) == line
  {
    forall c | c in line ensures c != '#' {
    }
    BeforeAbsent(line, '#');
    assert line[0] == name[0] && line[|line| - 1] == value[|value| - 1];
    TrimWhole(line);
  }

  lemma ValueIsTrimmed(value: string)
    requires value != "" && !IsSpace(value[0]) && !IsSpace(value[|value| - 1])
    ensures Trim(" " + value) == value
  {
    var rest := " " + value;
    assert rest[1..] == value;
    assert TrimLeft(rest) == TrimLeft(value) == value;
    TrimRightFixed(value);
  }

  lemma LineSplits(name: string, value: string, rest: string, line: string)
    requires line == name + ": " + value && rest == " " + value
    ensures line == name + [':'] + rest && line[|name| + 1..] == rest
  {
  }

  lemma TextInParts(text: string, name: string, rest: string)
    requires text != "" && Before(text, ':') == name && |name| < |text| && text[|name| + 1..] == rest
    ensures FieldOfText(text) == Some((Lower(Trim(name)), Trim(rest)))
  {
  }

  /** `Name: value` reads back as its name in lower case and its value. */
  lemma LineReadsBack(name: string, lower: string, value: string, line: string)
    requires line == name + ": " + value
    requires ReadsAs(name, lower) && Plain(value)
    ensures FieldOf(line) == Some((lower, value))
  {
    var rest := " " + value;
    LineSplits(name, value, rest, line);
    TrimmedEnds(name);
    TrimmedEnds(value);
    LineIsPlain(name, value, line);
    BeforeFirst(name, ':', rest);
    ValueIsTrimmed(value);
    TextInParts(line, name, rest);
  }

  predicate ReadsAs(name: string, lower: string) {
    name != "" && ':' !in name && '#' !in name && Trim(name) == name && Lower(name) == lower
  }

  lemma AgentNameLowers()
    ensures Lower(USER_AGENT) == "user-agent"
  {
    LowerByCharacter(USER_AGENT, "user-agent");
  }

  lemma AgentNameReads()
    ensures ReadsAs(USER_AGENT, "user-agent")
  {
    AgentNameLowers();
    TrimWhole(USER_AGENT);
  }

  lemma AllowNameReads()
    ensures ReadsAs(ALLOW, "allow")
  {
    LowerByCharacter(ALLOW, "allow");
    TrimWhole(ALLOW);
  }

  lemma DisallowNameReads()
    ensures ReadsAs(DISALLOW, "disallow")
  {
    LowerByCharacter(DISALLOW, "disallow");
    TrimWhole(DISALLOW);
  }

  lemma AgentField(agent: string)
    requires Plain(agent)
    ensures FieldOf(AgentText(agent)) == Some(("user-agent", agent))
  {
    AgentNameReads();
    LineReadsBack(USER_AGENT, "user-agent", agent, AgentText(agent));
  }

  lemma AgentReadsBack(number: string -> Option<nat>, s: State, agent: string, line: string)
    requires FieldOf(line) == Some(("user-agent", agent)) && Lower(agent) == agent
    ensures TakeLine(number, s, line) == AgentLine(s, agent)
  {
  }

  lemma RuleReadsBack(number: string -> Option<nat>, s: State, r: Robots.Rule, line: string)
    requires FieldOf(line) == Some((if r.allow then "allow" else "disallow", r.path))
    ensures TakeLine(number, s, line) == RuleLine(s, r)
  {
  }

  lemma RuleField(r: Robots.Rule)
    requires Plain(r.path)
    ensures FieldOf(RuleText(r)) == Some((if r.allow then "allow" else "disallow", r.path))
  {
    if r.allow {
      AllowNameReads();
      LineReadsBack(ALLOW, "allow", r.path, RuleText(r));
    } else {
      DisallowNameReads();
      LineReadsBack(DISALLOW, "disallow", r.path, RuleText(r));
    }
  }

  lemma AgentTaken(number: string -> Option<nat>, s: State, agent: string)
    requires Plain(agent) && Lower(agent) == agent
    ensures TakeLine(number, s, AgentText(agent)) == AgentLine(s, agent)
  {
    AgentField(agent);
    AgentReadsBack(number, s, agent, AgentText(agent));
  }

  lemma RuleTaken(number: string -> Option<nat>, s: State, r: Robots.Rule)
    requires Plain(r.path)
    ensures TakeLine(number, s, RuleText(r)) == RuleLine(s, r)
  {
    RuleField(r);
    RuleReadsBack(number, s, r, RuleText(r));
  }

  // ---- The round trip -------------------------------------------------------

  type Take = (State, string) -> State

  function Resume(take: Take, s: State, lines: seq<string>): State {
    if lines == [] then s else take(Resume(take, s, lines[..|lines| - 1]), lines[|lines| - 1])
  }

  lemma {:induction false} ResumeAppend(take: Take, s: State, a: seq<string>, b: seq<string>)
    ensures Resume(take, s, a + b) == Resume(take, Resume(take, s, a), b)
    decreases |b|
  {
    if b == [] {
      assert a + b == a;
    } else {
      assert (a + b)[..|a + b| - 1] == a + b[..|b| - 1];
      ResumeAppend(take, s, a, b[..|b| - 1]);
    }
  }

  lemma {:induction false} ParseIsResume(number: string -> Option<nat>, lines: seq<string>)
    ensures Parse(number, lines) == Resume((s: State, line: string) => TakeLine(number, s, line), NOTHING, lines)
    decreases |lines|
  {
    if lines != [] { ParseIsResume(number, lines[..|lines| - 1]); }
  }

  /** `take` reads an agent's line as that agent, and a rule's line as that rule. */
  ghost predicate ReadsAgent(take: Take, agent: string) {
    forall s :: take(s, AgentText(agent)) == AgentLine(s, agent)
  }

  ghost predicate ReadsRule(take: Take, r: Robots.Rule) {
    forall s :: take(s, RuleText(r)) == RuleLine(s, r)
  }

  lemma ResumeOne(take: Take, s: State, lines: seq<string>, line: string)
    ensures Resume(take, s, lines + [line]) == take(Resume(take, s, lines), line)
  {
    assert (lines + [line])[..|lines|] == lines;
  }

  lemma {:induction false} AgentsReadBack(take: Take, s: State, agents: seq<string>)
    requires agents != [] && forall i :: 0 <= i < |agents| ==> ReadsAgent(take, agents[i])
    ensures Resume(take, s, AgentTexts(agents)) == Joining(s, Group(agents, [], None))
    decreases |agents|
  {
    var n := |agents| - 1;
    var shorter := agents[..n];
    assert agents == shorter + [agents[n]] && ReadsAgent(take, agents[n]);
    ResumeOne(take, s, AgentTexts(shorter), AgentText(agents[n]));
    if n > 0 {
      AgentsReadBack(take, s, shorter);
      OneMoreAgent(s, shorter, agents[n]);
    } else {
      FirstAgent(s, agents[0]);
    }
  }

  lemma FirstAgent(s: State, agent: string)
    ensures AgentLine(s, agent) == Joining(s, Group([agent], [], None))
  {
    if !(s.groups == [] || !s.lastLineWasAgent) {
      assert Last(s).rules + [] == Last(s).rules;
    } else {
      assert [] + [agent] == [agent];
      var open := s.groups + [Group([], [], None)];
      assert open[|open| - 1 := Group([agent], [], None)] == s.groups + [Group([agent], [], None)];
    }
  }

  lemma OneMoreAgent(s: State, agents: seq<string>, agent: string)
    requires agents != []
    ensures AgentLine(Joining(s, Group(agents, [], None)), agent) == Joining(s, Group(agents + [agent], [], None))
  {
    if !(s.groups == [] || !s.lastLineWasAgent) {
      assert Last(s).agents + (agents + [agent]) == Last(s).agents + agents + [agent];
    }
  }

  lemma {:induction false} RulesReadBack(take: Take, s: State, agents: seq<string>, rules: seq<Robots.Rule>)
    requires forall i :: 0 <= i < |rules| ==> ReadsRule(take, rules[i]) && rules[i].path != ""
    ensures Resume(take, Joining(s, Group(agents, [], None)), RuleTexts(rules)) == Joining(s, Group(agents, rules, None))
    decreases |rules|
  {
    if rules != [] {
      var n := |rules| - 1;
      var shorter := rules[..n];
      assert rules == shorter + [rules[n]] && ReadsRule(take, rules[n]);
      RulesReadBack(take, s, agents, shorter);
      ResumeOne(take, Joining(s, Group(agents, [], None)), RuleTexts(shorter), RuleText(rules[n]));
      OneMoreRule(s, agents, shorter, rules[n]);
    }
  }

  lemma OneMoreRule(s: State, agents: seq<string>, rules: seq<Robots.Rule>, r: Robots.Rule)
    requires r.path != ""
    ensures RuleLine(Joining(s, Group(agents, rules, None)), r) == Joining(s, Group(agents, rules + [r], None))
  {
    if !(s.groups == [] || !s.lastLineWasAgent) {
      assert Last(s).rules + (rules + [r]) == Last(s).rules + rules + [r];
    }
  }

  ghost predicate Reads(take: Take, g: Group) {
    && g.agents != [] && g.crawlDelay == None
    && (forall i :: 0 <= i < |g.agents| ==> ReadsAgent(take, g.agents[i]))
    && (forall i :: 0 <= i < |g.rules| ==> ReadsRule(take, g.rules[i]) && g.rules[i].path != "")
  }

  lemma {:induction false} GroupsReadBack(take: Take, groups: seq<Group>)
    requires forall i :: 0 <= i < |groups| ==> Reads(take, groups[i])
    ensures Resume(take, NOTHING, Written(groups)) == JoinedUp(groups)
    decreases |groups|
  {
    if groups != [] {
      var g, shorter := groups[|groups| - 1], groups[..|groups| - 1];
      assert Reads(take, g);
      GroupsReadBack(take, shorter);
      ResumeAppend(take, NOTHING, Written(shorter) + AgentTexts(g.agents), RuleTexts(g.rules));
      ResumeAppend(take, NOTHING, Written(shorter), AgentTexts(g.agents));
      AgentsReadBack(take, JoinedUp(shorter), g.agents);
      RulesReadBack(take, JoinedUp(shorter), g.agents, g.rules);
      assert Group(g.agents, g.rules, None) == g;
    }
  }

  /** Reading back what was written gives the groups, each group without rules run into the one after it. */
  lemma WrittenReadsBack(number: string -> Option<nat>, groups: seq<Group>)
    requires forall i :: 0 <= i < |groups| ==> Writable(groups[i])
    ensures Parse(number, Written(groups)) == JoinedUp(groups)
  {
    var take := (s: State, line: string) => TakeLine(number, s, line);
    forall i | 0 <= i < |groups| ensures Reads(take, groups[i]) {
      WritableReads(number, groups[i]);
    }
    GroupsReadBack(take, groups);
    ParseIsResume(number, Written(groups));
  }

  lemma WritableReads(number: string -> Option<nat>, g: Group)
    requires Writable(g)
    ensures Reads((s: State, line: string) => TakeLine(number, s, line), g)
  {
    var take := (s: State, line: string) => TakeLine(number, s, line);
    forall i | 0 <= i < |g.agents| ensures ReadsAgent(take, g.agents[i]) {
      forall s ensures take(s, AgentText(g.agents[i])) == AgentLine(s, g.agents[i]) {
        AgentTaken(number, s, g.agents[i]);
      }
    }
    forall i | 0 <= i < |g.rules| ensures ReadsRule(take, g.rules[i]) && g.rules[i].path != "" {
      forall s ensures take(s, RuleText(g.rules[i])) == RuleLine(s, g.rules[i]) {
        RuleTaken(number, s, g.rules[i]);
      }
    }
  }

  predicate AllButLastHaveRules(groups: seq<Group>) {
    forall i :: 0 <= i < |groups| - 1 ==> groups[i].rules != []
  }

  lemma JoiningShape(s: State, g: Group)
    ensures var t := Joining(s, g);
            && t.groups != [] && (t.lastLineWasAgent <==> g.rules == [])
            && (if s.groups == [] || !s.lastLineWasAgent then t.groups == s.groups + [g] else |t.groups| == |s.groups|)
  {
  }

  lemma AllButLastSplits(groups: seq<Group>, shorter: seq<Group>)
    requires groups != [] && shorter == groups[..|groups| - 1]
    ensures AllButLastHaveRules(groups)
            <==> AllButLastHaveRules(shorter) && (shorter != [] ==> shorter[|shorter| - 1].rules != [])
  {
  }

  predicate ReadBack(s: State, groups: seq<Group>) {
    && |s.groups| <= |groups|
    && (|s.groups| == |groups| <==> AllButLastHaveRules(groups))
    && (AllButLastHaveRules(groups) ==> s.groups == groups)
    && (groups != [] ==> s.groups != [])
    && (s.lastLineWasAgent <==> groups != [] && groups[|groups| - 1].rules == [])
  }

  lemma OneMoreReadBack(s: State, t: State, shorter: seq<Group>, g: Group, groups: seq<Group>)
    requires ReadBack(s, shorter) && groups == shorter + [g]
    requires t.groups != [] && (t.lastLineWasAgent <==> g.rules == [])
    requires if s.groups == [] || !s.lastLineWasAgent then t.groups == s.groups + [g] else |t.groups| == |s.groups|
    ensures ReadBack(t, groups)
  {
    AllButLastSplits(groups, shorter);
  }

  /** What holds of nothing read and survives one more group holds of whatever is read back. */
  lemma {:induction false} JoinedUpInduction(holds: (State, seq<Group>) -> bool, groups: seq<Group>)
    requires holds(NOTHING, [])
    requires forall s, shorter, g :: holds(s, shorter) ==> holds(Joining(s, g), shorter + [g])
    ensures holds(JoinedUp(groups), groups)
  {
    if groups != [] {
      var shorter, g := groups[..|groups| - 1], groups[|groups| - 1];
      JoinedUpInduction(holds, shorter);
      assert holds(Joining(JoinedUp(shorter), g), shorter + [g]);
      assert shorter + [g] == groups;
    } else {
      assert groups == [];
    }
  }

  lemma JoinedUpShape(groups: seq<Group>)
    ensures ReadBack(JoinedUp(groups), groups)
  {
    var holds := (s: State, some: seq<Group>) => ReadBack(s, some);
    forall s, shorter, g | holds(s, shorter) ensures holds(Joining(s, g), shorter + [g]) {
      JoiningShape(s, g);
      OneMoreReadBack(s, Joining(s, g), shorter, g, shorter + [g]);
    }
    JoinedUpInduction(holds, groups);
  }

  /** The round trip is exact precisely when every group but the last has a rule. */
  lemma RoundTripIff(number: string -> Option<nat>, groups: seq<Group>)
    requires forall i :: 0 <= i < |groups| ==> Writable(groups[i])
    ensures Parse(number, Written(groups)).groups == groups <==> AllButLastHaveRules(groups)
  {
    WrittenReadsBack(number, groups);
    JoinedUpShape(groups);
  }

  // ---- The most specific group ----------------------------------------------

  predicate NamedBy(g: Group, agent: string, name: string) {
    name in g.agents && name != "*" && Contains(agent, name)
  }

  /** The group names us by a name at least as long as any that any group names us by. */
  ghost predicate MostSpecific(groups: seq<Group>, k: nat, agent: string) {
    && k < |groups|
    && exists name :: NamedBy(groups[k], agent, name)
                      && forall j, other :: 0 <= j < |groups| && NamedBy(groups[j], agent, other) ==> |other| <= |name|
  }

  lemma NamesUsByName(g: Group, agent: string)
    ensures NamesUs(g, agent) <==> exists name :: NamedBy(g, agent, name)
  {
    if NamesUs(g, agent) {
      var i :| 0 <= i < |g.agents| && g.agents[i] != "*" && Contains(agent, g.agents[i]);
      assert NamedBy(g, agent, g.agents[i]);
    }
    if name :| NamedBy(g, agent, name) {
      var i :| 0 <= i < |g.agents| && g.agents[i] == name;
    }
  }

  lemma {:induction false} LongestName(names: seq<string>, meets: string -> bool) returns (longest: string)
    requires exists n :: n in names && meets(n)
    ensures longest in names && meets(longest) && forall n :: n in names && meets(n) ==> |n| <= |longest|
  {
    var last, rest := names[|names| - 1], names[..|names| - 1];
    assert names == rest + [last];
    if exists n :: n in rest && meets(n) {
      longest := LongestName(rest, meets);
      if meets(last) && |last| > |longest| {
        longest := last;
      }
    } else {
      longest := last;
    }
  }

  /** No later group names us by a longer name than this one does. */
  ghost predicate NoneLaterIsLonger(groups: seq<Group>, k: nat, agent: string)
    requires k < |groups|
  {
    forall j, other :: k < j < |groups| && NamedBy(groups[j], agent, other) ==>
      exists name :: NamedBy(groups[k], agent, name) && |other| <= |name|
  }

  /**
   * Where some group names us, the first that does decides; and it is a most specific one exactly when
   * no later group names us by a longer name.
   */
  lemma ChosenIsMostSpecificIff(s: State, agent: string, p: Policy, k: nat)
    requires Decides(s, agent, p) && First(s.groups, k, (g: Group) => NamesUs(g, agent))
    ensures p == PolicyOf(s.groups[k], s.sitemaps)
    ensures MostSpecific(s.groups, k, agent) <==> NoneLaterIsLonger(s.groups, k, agent)
  {
    FirstDecides(s, agent, p, k);
    NamesUsByName(s.groups[k], agent);
    if NoneLaterIsLonger(s.groups, k, agent) {
      var named := (name: string) => NamedBy(s.groups[k], agent, name);
      var some :| NamedBy(s.groups[k], agent, some);
      var longest := LongestName(s.groups[k].agents, named);
      forall j, other | 0 <= j < |s.groups| && NamedBy(s.groups[j], agent, other) ensures |other| <= |longest| {
        NamesUsByName(s.groups[j], agent);
        if k < j {
          var name :| NamedBy(s.groups[k], agent, name) && |other| <= |name|;
          assert name in s.groups[k].agents && named(name);
        }
      }
      assert NamedBy(s.groups[k], agent, longest);
    }
  }

  lemma FirstDecides(s: State, agent: string, p: Policy, k: nat)
    requires Decides(s, agent, p) && First(s.groups, k, (g: Group) => NamesUs(g, agent))
    ensures p == PolicyOf(s.groups[k], s.sitemaps)
  {
    assert s.groups[k] in s.groups && NamesUs(s.groups[k], agent);
    var i: nat :| First(s.groups, i, (g: Group) => NamesUs(g, agent)) && p == PolicyOf(s.groups[i], s.sitemaps);
    assert i == k;
  }

  predicate PlainPaths(rules: seq<Robots.Rule>) {
    forall i :: 0 <= i < |rules| ==> Plain(rules[i].path)
  }

  /** A name as it can stand on a user-agent line, already in lower case. */
  predicate PlainName(name: string) {
    Plain(name) && Lower(name) == name
  }

  function TwoGroups(short: string, loose: seq<Robots.Rule>, long: string, strict: seq<Robots.Rule>): seq<Group> {
    [Group([short], loose, None), Group([long], strict, None)]
  }

  lemma OnlyNames(short: string, loose: seq<Robots.Rule>, agent: string)
    requires short != "*" && Contains(agent, short)
    ensures NamedBy(Group([short], loose, None), agent, short) && NamesUs(Group([short], loose, None), agent)
    ensures forall name :: NamedBy(Group([short], loose, None), agent, name) ==> name == short
  {
    var g := Group([short], loose, None);
    assert g.agents[0] == short;
  }

  /** Wherever the first group that names us does so by shorter names only than a later one, it decides all the same. */
  lemma FirstBeatsMoreSpecific(number: string -> Option<nat>, lines: seq<string>, agent: string, p: Policy, k: nat, j: nat, long: string)
    requires var groups := Parse(number, lines).groups;
             && First(groups, k, (g: Group) => NamesUs(g, agent)) && k < j < |groups| && NamedBy(groups[j], agent, long)
             && forall name :: NamedBy(groups[k], agent, name) ==> |name| < |long|
    requires Decides(Parse(number, lines), agent, p)
    ensures p == PolicyOf(Parse(number, lines).groups[k], Parse(number, lines).sitemaps)
    ensures !MostSpecific(Parse(number, lines).groups, k, agent)
  {
    ChosenIsMostSpecificIff(Parse(number, lines), agent, p, k);
  }

  lemma TwoReadBack(number: string -> Option<nat>, short: string, loose: seq<Robots.Rule>, long: string, strict: seq<Robots.Rule>)
    requires PlainName(short) && PlainName(long) && PlainPaths(loose) && PlainPaths(strict) && loose != []
    ensures Parse(number, Written(TwoGroups(short, loose, long, strict))).groups == TwoGroups(short, loose, long, strict)
  {
    RoundTripIff(number, TwoGroups(short, loose, long, strict));
  }

  /** Two groups written out, the shorter name first. */
  lemma ShorterNameDecides(number: string -> Option<nat>, agent: string, short: string, loose: seq<Robots.Rule>,
                           long: string, strict: seq<Robots.Rule>, p: Policy)
    requires PlainName(short) && PlainName(long) && PlainPaths(loose) && PlainPaths(strict) && loose != []
    requires short != "*" && long != "*" && Contains(agent, short) && Contains(agent, long) && |short| < |long|
    requires Decides(Parse(number, Written(TwoGroups(short, loose, long, strict))), agent, p)
    ensures p.rules == loose
    ensures !MostSpecific(TwoGroups(short, loose, long, strict), 0, agent)
  {
    var groups := TwoGroups(short, loose, long, strict);
    TwoReadBack(number, short, loose, long, strict);
    OnlyNames(short, loose, agent);
    OnlyNames(long, strict, agent);
    assert groups[0] == Group([short], loose, None) && groups[1] == Group([long], strict, None);
    FirstBeatsMoreSpecific(number, Written(groups), agent, p, 0, 1, long);
  }

  const BOT := "bot"
  const RIFTBOT := "riftbot"

  lemma BotIsPlain()
    ensures PlainName(BOT) && BOT != "*"
  {
    LowerByCharacter(BOT, "bot");
    TrimWhole(BOT);
  }

  lemma RiftbotIsPlain()
    ensures PlainName(RIFTBOT) && RIFTBOT != "*"
  {
    LowerByCharacter(RIFTBOT, "riftbot");
    TrimWhole(RIFTBOT);
  }

  lemma RiftbotContainsBoth()
    ensures Contains(RIFTBOT, BOT) && Contains(RIFTBOT, RIFTBOT)
  {
    assert PartAt(RIFTBOT, 4, BOT) && PartAt(RIFTBOT, 0, RIFTBOT);
  }

  /** Such a file in full: everything is open to `bot` and closed to `riftbot`, and our agent is left free. */
  lemma SuchAFile(number: string -> Option<nat>, lines: seq<string>, p: Policy)
    requires lines == ["User-agent: bot", "Allow: /", "User-agent: riftbot", "Disallow: /"]
    requires Decides(Parse(number, lines), RIFTBOT, p)
    ensures p.rules == [Robots.Rule(true, "/")]
  {
    var open, closed := Robots.Rule(true, "/"), Robots.Rule(false, "/");
    BotIsPlain();
    RiftbotIsPlain();
    RiftbotContainsBoth();
    TrimWhole("/");
    WrittenInFull(open, closed, lines);
    ShorterNameDecides(number, RIFTBOT, BOT, [open], RIFTBOT, [closed], p);
  }

  lemma WrittenInFull(open: Robots.Rule, closed: Robots.Rule, lines: seq<string>)
    requires open == Robots.Rule(true, "/") && closed == Robots.Rule(false, "/")
    requires lines == ["User-agent: bot", "Allow: /", "User-agent: riftbot", "Disallow: /"]
    ensures Written(TwoGroups(BOT, [open], RIFTBOT, [closed])) == lines
  {
    TwoWritten(BOT, open, RIFTBOT, closed);
    assert AgentText(BOT) == "User-agent: bot" && AgentText(RIFTBOT) == "User-agent: riftbot";
    assert RuleText(open) == "Allow: /" && RuleText(closed) == "Disallow: /";
  }

  lemma TwoWritten(short: string, open: Robots.Rule, long: string, closed: Robots.Rule)
    ensures Written(TwoGroups(short, [open], long, [closed]))
            == [AgentText(short), RuleText(open), AgentText(long), RuleText(closed)]
  {
    var groups := TwoGroups(short, [open], long, [closed]);
    assert groups[..1] == [groups[0]] && [groups[0]][..0] == [];
    OneOfEach(short, open);
    OneOfEach(long, closed);
    assert Written([groups[0]]) == Written([]) + AgentTexts([short]) + RuleTexts([open]);
  }

  lemma OneOfEach(agent: string, rule: Robots.Rule)
    ensures AgentTexts([agent]) == [AgentText(agent)] && RuleTexts([rule]) == [RuleText(rule)]
  {
    assert [agent][..0] == [] && [rule][..0] == [];
  }

  // ---- Combining groups -----------------------------------------------------

  /** The rules of all groups that are wanted, in the order of the file. */
  function Combined(groups: seq<Group>, wanted: Group -> bool): seq<Robots.Rule> {
    if groups == [] then [] else (if wanted(groups[0]) then groups[0].rules else []) + Combined(groups[1..], wanted)
  }

  /** Those of the wanted groups after the first. */
  function Later(groups: seq<Group>, wanted: Group -> bool): seq<Robots.Rule> {
    if groups == [] then []
    else if wanted(groups[0]) then Combined(groups[1..], wanted)
    else Later(groups[1..], wanted)
  }

  /** The groups that speak to us: those that name us; where there is none, those for everybody. */
  ghost function Speaking(s: State, agent: string): Group -> bool {
    if exists g :: g in s.groups && NamesUs(g, agent) then (g: Group) => NamesUs(g, agent) else IsWildcard
  }

  lemma {:induction false} CombinedFromFirst(groups: seq<Group>, wanted: Group -> bool, k: nat)
    requires First(groups, k, wanted)
    ensures Combined(groups, wanted) == groups[k].rules + Later(groups, wanted)
  {
    if k > 0 {
      assert !wanted(groups[0]);
      assert First(groups[1..], k - 1, wanted);
      CombinedFromFirst(groups[1..], wanted, k - 1);
    }
  }

  lemma {:induction false} NothingCombined(groups: seq<Group>, wanted: Group -> bool)
    requires forall g :: g in groups ==> !wanted(g)
    ensures Combined(groups, wanted) == [] == Later(groups, wanted)
  {
    if groups != [] {
      NothingCombined(groups[1..], wanted);
    }
  }

  lemma CombinedIsMore(s: State, agent: string, p: Policy)
    requires Decides(s, agent, p)
    ensures Combined(s.groups, Speaking(s, agent)) == p.rules + Later(s.groups, Speaking(s, agent))
  {
    var wanted := Speaking(s, agent);
    if k: nat :| First(s.groups, k, wanted) && p == PolicyOf(s.groups[k], s.sitemaps) {
      CombinedFromFirst(s.groups, wanted, k);
    } else {
      NothingCombined(s.groups, wanted);
    }
  }

  /**
   * Section 2.2.1 of RFC 9309 combines the rules of all groups that speak to us; the code takes the first
   * group alone. On a path the verdicts are the same exactly when no rule of a later such group overturns
   * the first group's.
   */
  lemma CombiningAgreesIff(s: State, agent: string, p: Policy, path: string)
    requires Decides(s, agent, p)
    ensures (Allowed(p.rules, path) <==> Allowed(Combined(s.groups, Speaking(s, agent)), path))
            <==> !Overturns(p.rules, Later(s.groups, Speaking(s, agent)), path)
  {
    CombinedIsMore(s, agent, p);
    MoreRulesShowIff(p.rules, Later(s.groups, Speaking(s, agent)), path);
  }

  // ---- What a line says -----------------------------------------------------

  lemma {:induction false} TrimLeftPadded(a: string, x: string)
    requires Blank(a)
    ensures TrimLeft(a + x) == TrimLeft(x)
  {
    if a != "" {
      assert a[0] in a && (a + x)[0] == a[0] && (a + x)[1..] == a[1..] + x;
      TrimLeftPadded(a[1..], x);
    } else {
      assert a + x == x;
    }
  }

  lemma {:induction false} TrimRightPadded(x: string, b: string)
    requires Blank(b)
    ensures TrimRight(x + b) == TrimRight(x)
  {
    if b != "" {
      var n := |b| - 1;
      assert b[n] in b && (x + b)[|x + b| - 1] == b[n] && (x + b)[..|x + b| - 1] == x + b[..n];
      TrimRightPadded(x, b[..n]);
    } else {
      assert x + b == x;
    }
  }

  /** White space on either side does not matter. */
  lemma TrimPadded(a: string, x: string, b: string)
    requires Blank(a) && Blank(b) && Trim(x) == x
    ensures Trim(a + x + b) == x
  {
    assert a + x + b == a + (x + b);
    TrimLeftPadded(a, x + b);
    if x == "" {
      TrimLeftBlank(x + b);
    } else {
      TrimmedEnds(x);
      assert (x + b)[0] == x[0];
      TrimRightPadded(x, b);
      TrimRightFixed(x);
    }
  }

  lemma BeforeComment(text: string, comment: string)
    requires '#' !in text && (comment == "" || comment[0] == '#')
    ensures Before(text + comment, '#') == text
  {
    if comment == "" {
      assert text + comment == text;
      BeforeAbsent(text, '#');
    } else {
      assert text + comment == text + ['#'] + comment[1..];
      BeforeFirst(text, '#', comment[1..]);
    }
  }

  /** A name, a colon and a value, with white space anywhere around them and a comment behind: nothing else is read. */
  lemma FieldIsRead(a: string, name: string, b: string, c: string, value: string, d: string, comment: string)
    requires Blank(a) && Blank(b) && Blank(c) && Blank(d) && (comment == "" || comment[0] == '#')
    requires name != "" && Trim(name) == name && ':' !in name && '#' !in name && Trim(value) == value && '#' !in value
    ensures FieldOf(a + name + b + ":" + c + value + d + comment) == Some((Lower(name), value))
  {
    var text := a + name + b + ":" + c + value + d;
    NoSign(a);
    NoSign(b);
    NoSign(c);
    NoSign(d);
    BeforeComment(text, comment);
    TrimmedField(a, name, b, c, value, d);
  }

  lemma NoSign(s: string)
    requires Blank(s)
    ensures '#' !in s && ':' !in s
  {
  }

  /** The text that is left of a line: up to the colon the name and white space, behind it the value in white space. */
  lemma TrimmedText(a: string, name: string, b: string, tail: string) returns (kept: string)
    requires Blank(a) && name != "" && Trim(name) == name
    ensures Trim(a + name + b + ":" + tail) == name + b + ":" + kept && Trim(kept) == Trim(tail)
  {
    var head := name + b + ":";
    TrimmedEnds(name);
    assert a + name + b + ":" + tail == a + (head + tail);
    TrimLeftPadded(a, head + tail);
    assert (head + tail)[0] == name[0];
    kept := TrimEnd(head, tail);
  }

  lemma SplitField(name: string, b: string, kept: string)
    requires name != "" && Trim(name) == name && ':' !in name && Blank(b)
    ensures FieldOfText(name + b + ":" + kept) == Some((Lower(name), Trim(kept)))
  {
    var text, front := name + b + ":" + kept, name + b;
    NoSign(b);
    assert text == front + [':'] + kept;
    BeforeFirst(front, ':', kept);
    assert text[|front| + 1..] == kept;
    TrimmedName(name, b);
    TextInParts(text, front, kept);
  }

  lemma TrimmedName(name: string, b: string)
    requires Trim(name) == name && Blank(b)
    ensures Trim(name + b) == name
  {
    assert "" + name + b == name + b;
    TrimPadded("", name, b);
  }

  lemma TrimmedField(a: string, name: string, b: string, c: string, value: string, d: string)
    requires Blank(a) && Blank(b) && Blank(c) && Blank(d)
    requires name != "" && Trim(name) == name && ':' !in name && Trim(value) == value
    ensures FieldOfText(Trim(a + name + b + ":" + c + value + d)) == Some((Lower(name), value))
  {
    Regrouped(a + name + b + ":", c, value, d);
    var kept := TrimmedText(a, name, b, c + value + d);
    TrimPadded(c, value, d);
    SplitField(name, b, kept);
  }

  lemma Regrouped(front: string, c: string, value: string, d: string)
    ensures front + c + value + d == front + (c + value + d)
  {
  }

  /** Trimming the end of a line trims its value alone: the colon stops it. */
  lemma {:induction false} TrimEnd(head: string, tail: string) returns (kept: string)
    requires head != "" && !IsSpace(head[|head| - 1])
    ensures TrimRight(head + tail) == head + kept && Trim(kept) == Trim(tail)
  {
    if tail == "" {
      assert head + tail == head;
      TrimRightFixed(head);
      assert head + "" == head;
      kept := "";
    } else {
      var n := |tail| - 1;
      assert (head + tail)[|head + tail| - 1] == tail[n] && (head + tail)[..|head + tail| - 1] == head + tail[..n];
      if IsSpace(tail[n]) {
        kept := TrimEnd(head, tail[..n]);
        LastSpaceTrimmed(tail);
      } else {
        kept := tail;
      }
    }
  }

  lemma LastSpaceTrimmed(s: string)
    requires s != "" && IsSpace(s[|s| - 1])
    ensures Trim(s) == Trim(s[..|s| - 1])
  {
    var n := |s| - 1;
    TrimLeftBeforeSpace(s[..n], s[n..]);
    assert s == s[..n] + s[n..];
    if !Blank(s[..n]) {
      TrimRightPadded(TrimLeft(s[..n]), s[n..]);
    } else {
      TrimBlank(s);
      TrimBlank(s[..n]);
    }
  }

  lemma {:induction false} TrimLeftBeforeSpace(x: string, b: string)
    ensures !Blank(x) ==> TrimLeft(x + b) == TrimLeft(x) + b
  {
    if !Blank(x) {
      assert (x + b)[0] == x[0] && (x + b)[1..] == x[1..] + b;
      if IsSpace(x[0]) {
        assert x == [x[0]] + x[1..];
        TrimLeftBeforeSpace(x[1..], b);
      }
    }
  }

  /** A line with nothing before its comment, or no colon there, says nothing. */
  lemma NothingRead(number: string -> Option<nat>, s: State, text: string, comment: string)
    requires '#' !in text && (comment == "" || comment[0] == '#') && (Blank(text) || ':' !in text)
    ensures TakeLine(number, s, text + comment) == s
  {
    BeforeComment(text, comment);
    TrimBlank(text);
    BeforeAbsent(Trim(text), ':');
  }

  /** The group last opened, changed in one respect. */
  function Reopened(s: State, g: Group): seq<Group>
    requires s.groups != []
  {
    s.groups[..|s.groups| - 1] + [g]
  }

  /** An agent joins the group just opened, or opens one. */
  lemma AgentLineIs(s: State, agent: string)
    ensures AgentLine(s, agent).lastLineWasAgent && AgentLine(s, agent).sitemaps == s.sitemaps
    ensures AgentLine(s, agent).groups ==
            if s.groups != [] && s.lastLineWasAgent
            then Reopened(s, s.groups[|s.groups| - 1].(agents := s.groups[|s.groups| - 1].agents + [agent]))
            else s.groups + [Group([agent], [], None)]
  {
    var none: seq<string> := [];
    assert none + [agent] == [agent];
    var one := s.groups + [Group([], [], None)];
    assert one[|one| - 1 := Group([agent], [], None)] == s.groups + [Group([agent], [], None)];
  }

  /** A rule with a path goes to the group last opened, if there is one, and closes the run of agents. */
  lemma RuleLineIs(s: State, rule: Robots.Rule)
    ensures !RuleLine(s, rule).lastLineWasAgent && RuleLine(s, rule).sitemaps == s.sitemaps
    ensures RuleLine(s, rule).groups ==
            if s.groups != [] && rule.path != ""
            then Reopened(s, s.groups[|s.groups| - 1].(rules := s.groups[|s.groups| - 1].rules + [rule]))
            else s.groups
  {
  }

  /** A readable delay and a sitemap are kept once there is a group; every other field does nothing but close the run. */
  lemma OtherLineIs(number: string -> Option<nat>, s: State, field: string, value: string)
    ensures !OtherLine(number, s, field, value).lastLineWasAgent
    ensures OtherLine(number, s, field, value).sitemaps == if s.groups != [] && field == "sitemap" then s.sitemaps + [value] else s.sitemaps
    ensures OtherLine(number, s, field, value).groups ==
            if s.groups != [] && field == "crawl-delay" && number(value).Some?
            then Reopened(s, s.groups[|s.groups| - 1].(crawlDelay := number(value)))
            else s.groups
  {
  }

  /** A field goes where its name says: a name of ours, a rule, or one of the rest. */
  lemma FieldIsTaken(number: string -> Option<nat>, s: State, line: string, field: string, value: string)
    requires FieldOf(line) == Some((field, value))
    ensures field == "user-agent" ==> TakeLine(number, s, line) == AgentLine(s, Lower(value))
    ensures field in {"allow", "disallow"} ==> TakeLine(number, s, line) == RuleLine(s, Robots.Rule(field == "allow", value))
    ensures field !in {"user-agent", "allow", "disallow"} ==> TakeLine(number, s, line) == OtherLine(number, s, field, value)
  {
  }
}
