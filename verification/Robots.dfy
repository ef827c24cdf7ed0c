/**
 * robots.txt rules: a path pattern is translated to the text of a regular expression, and the longest
 * matching rule decides. Section 2.2.2 and 2.2.3 of RFC 9309 say what both should mean.
 */
module Robots {
  import opened Sequences

  // ---- What a pattern means -------------------------------------------------

  /** The characters `.` does not match in an ECMAScript regular expression. */
  predicate LineTerminator(c: char) {
    c == '\n' || c == '\r' || c == '\U{2028}' || c == '\U{2029}'
  }

  /** Line feed, carriage return, line separator and paragraph separator: what `.` stops at. */
  lemma LineTerminatorsAre(c: char)
    ensures LineTerminator(c) <==> c as int in {0xA, 0xD, 0x2028, 0x2029}
  {
  }

  predicate OneLine(s: string) {
    forall i :: 0 <= i < |s| ==> !LineTerminator(s[i])
  }

  /** What one pattern character stands for; `strict` keeps a star from crossing a line end. */
  predicate StandsFor(c: char, piece: string, strict: bool) {
    if c == '*' then strict ==> OneLine(piece) else if c == '$' then piece == "" else piece == [c]
  }

  function Concat(pieces: seq<string>): string {
    if pieces == [] then "" else pieces[0] + Concat(pieces[1..])
  }

  /**
   * The pattern fits the path: a piece of text for every pattern character, together a prefix of the
   * path, with the path at its end wherever a `$` stands.
   */
  ghost predicate Fits(pattern: string, path: string, pieces: seq<string>, strict: bool) {
    && |pieces| == |pattern|
    && (forall i :: 0 <= i < |pattern| ==> StandsFor(pattern[i], pieces[i], strict))
    && Concat(pieces) <= path
    && (forall i :: 0 <= i < |pattern| && pattern[i] == '$' ==> Concat(pieces[..i]) == path)
  }

  /** `*` any text, `$` the end wherever it stands, a prefix otherwise: what the translation means to say. */
  ghost predicate Means(pattern: string, path: string) {
    exists pieces :: Fits(pattern, path, pieces, false)
  }

  // ---- The regular expression -----------------------------------------------

  const SYNTAX := ".+?^${}()|[]\\"

  function Escaped(c: char): string {
    if c in SYNTAX then ['\\', c] else [c]
  }

  function SourceOf(c: char): string {
    if c == '*' then ".*" else if c == '$' then "$" else Escaped(c)
  }

  function Source(pattern: string): string {
    if pattern == "" then "" else SourceOf(pattern[0]) + Source(pattern[1..])
  }

  lemma {:induction false} SourceAppend(a: string, b: string)
    ensures Source(a + b) == Source(a) + Source(b)
  {
    if a == "" {
      assert a + b == b;
    } else {
      assert (a + b)[0] == a[0] && (a + b)[1..] == a[1..] + b;
      SourceAppend(a[1..], b);
      assert SourceOf(a[0]) + (Source(a[1..]) + Source(b)) == SourceOf(a[0]) + Source(a[1..]) + Source(b);
    }
  }

  method PatternToRegex(pattern: string) returns (source: string)
    ensures source == Source(pattern)
  {
    source := "";
    for i := 0 to |pattern|
      invariant source == Source(pattern[..i])
    {
      var character := pattern[i];
      assert pattern[..i + 1] == pattern[..i] + [character];
      SourceAppend(pattern[..i], [character]);
      assert Source([character]) == SourceOf(character) + "" == SourceOf(character);
      if character == '*' {
        source := source + ".*";
      } else if character == '$' {
        source := source + "$";
      } else if character in SYNTAX {
        source := source + ['\\', character];
      } else {
        source := source + [character];
      }
    }
    assert pattern[..|pattern|] == pattern;
  }

  predicate Quantified(rest: string) {
    rest != "" && rest[0] in "*+?{"
  }

  /**
   * Backtracking match of regular-expression text at the start of a string, for the part of the syntax
   * the translation uses: `.*`, `$`, an escaped syntax character, a plain character. Anything else fails.
   */
  predicate RegexMatches(source: string, text: string)
    decreases |source|
  {
    if source == "" then true
    else if source[0] == '.' then
      |source| >= 2 && source[1] == '*' && !Quantified(source[2..])
      && exists k :: 0 <= k <= |text| && OneLine(text[..k]) && RegexMatches(source[2..], text[k..])
    else if source[0] == '$' then !Quantified(source[1..]) && text == "" && RegexMatches(source[1..], text)
    else if source[0] == '\\' then
      |source| >= 2 && source[1] in SYNTAX && !Quantified(source[2..])
      && text != "" && text[0] == source[1] && RegexMatches(source[2..], text[1..])
    else source[0] !in SYNTAX && source[0] != '*' && !Quantified(source[1..])
         && text != "" && text[0] == source[0] && RegexMatches(source[1..], text[1..])
  }

  /** What the translation emits never starts with a quantifier. */
  lemma SourceIsAtoms(pattern: string)
    ensures !Quantified(Source(pattern))
  {
    if pattern != "" {
      var head := SourceOf(pattern[0]);
      assert Source(pattern)[0] == head[0];
    }
  }

  /** Matching character by character along the pattern. */
  predicate Matches(pattern: string, path: string, strict: bool)
    decreases |pattern|
  {
    if pattern == "" then true
    else if pattern[0] == '*' then
      exists k :: 0 <= k <= |path| && (strict ==> OneLine(path[..k])) && Matches(pattern[1..], path[k..], strict)
    else if pattern[0] == '$' then path == "" && Matches(pattern[1..], path, strict)
    else path != "" && path[0] == pattern[0] && Matches(pattern[1..], path[1..], strict)
  }

  /** The escaped text, read back as a regular expression, matches what the pattern's characters say. */
  lemma {:induction false} RegexFollowsPattern(pattern: string, path: string)
    ensures RegexMatches(Source(pattern), path) <==> Matches(pattern, path, true)
    decreases |pattern|
  {
    if pattern != "" {
      var c, rest := pattern[0], pattern[1..];
      var source := Source(pattern);
      SourceIsAtoms(rest);
      if c == '*' {
        assert source[0] == '.' && source[1] == '*' && source[2..] == Source(rest);
        forall k | 0 <= k <= |path| ensures RegexMatches(Source(rest), path[k..]) <==> Matches(rest, path[k..], true) {
          RegexFollowsPattern(rest, path[k..]);
        }
      } else if c == '$' {
        assert source[0] == '$' && source[1..] == Source(rest);
        RegexFollowsPattern(rest, path);
      } else {
        if c in SYNTAX {
          assert source[0] == '\\' && source[1] == c && source[2..] == Source(rest);
        } else {
          assert source[0] == c && source[1..] == Source(rest);
        }
        if path != "" {
          RegexFollowsPattern(rest, path[1..]);
        }
      }
    }
  }

  // ---- Matching along the pattern is fitting --------------------------------

  lemma {:induction false} MatchesFits(pattern: string, path: string, strict: bool) returns (pieces: seq<string>)
    requires Matches(pattern, path, strict)
    ensures Fits(pattern, path, pieces, strict)
    decreases |pattern|
  {
    if pattern == "" {
      pieces := [];
    } else {
      var piece := "";
      if pattern[0] == '*' {
        var k :| 0 <= k <= |path| && (strict ==> OneLine(path[..k])) && Matches(pattern[1..], path[k..], strict);
        piece := path[..k];
      } else if pattern[0] != '$' {
        piece := path[..1];
      }
      var tail := path[|piece|..];
      assert path == piece + tail;
      var rest := MatchesFits(pattern[1..], tail, strict);
      pieces := [piece] + rest;
      PrependFits(pattern, path, piece, rest, strict);
    }
  }

  lemma PrependFits(pattern: string, path: string, piece: string, rest: seq<string>, strict: bool)
    requires pattern != "" && piece <= path && StandsFor(pattern[0], piece, strict)
    requires pattern[0] == '$' ==> path == ""
    requires Fits(pattern[1..], path[|piece|..], rest, strict)
    ensures Fits(pattern, path, [piece] + rest, strict)
  {
    var pieces, tail := [piece] + rest, path[|piece|..];
    assert pieces[1..] == rest && path == piece + tail;
    forall i | 0 <= i < |pattern| && pattern[i] == '$' ensures Concat(pieces[..i]) == path {
      if i == 0 {
        assert pieces[..0] == [];
      } else {
        assert pieces[..i][1..] == rest[..i - 1] && pattern[1..][i - 1] == '$';
      }
    }
  }

  lemma {:induction false} FitsMatches(pattern: string, path: string, pieces: seq<string>, strict: bool)
    requires Fits(pattern, path, pieces, strict)
    ensures Matches(pattern, path, strict)
    decreases |pattern|
  {
    if pattern != "" {
      FitsTail(pattern, path, pieces, strict);
      FitsMatches(pattern[1..], path[|pieces[0]|..], pieces[1..], strict);
      assert path[..|pieces[0]|] == pieces[0];
    }
  }

  lemma PrefixInTwo(piece: string, rest: string, path: string)
    requires piece + rest <= path
    ensures piece <= path && rest <= path[|piece|..] && path == piece + path[|piece|..]
  {
    assert (piece + rest)[..|piece|] == piece && (piece + rest)[|piece|..] == rest;
  }

  lemma PiecesBefore(pieces: seq<string>, i: nat, path: string, tail: string)
    requires pieces != [] && i < |pieces| && Concat(pieces[..i + 1]) == path == pieces[0] + tail
    ensures Concat(pieces[1..][..i]) == tail
  {
    assert pieces[..i + 1][0] == pieces[0] && pieces[..i + 1][1..] == pieces[1..][..i];
    assert (pieces[0] + tail)[|pieces[0]|..] == tail;
    assert (pieces[0] + Concat(pieces[1..][..i]))[|pieces[0]|..] == Concat(pieces[1..][..i]);
  }

  /** The first piece taken off, the rest of the pattern fits the rest of the path. */
  lemma FitsTail(pattern: string, path: string, pieces: seq<string>, strict: bool)
    requires pattern != "" && Fits(pattern, path, pieces, strict)
    ensures pieces[0] <= path && Fits(pattern[1..], path[|pieces[0]|..], pieces[1..], strict)
    ensures pattern[0] == '$' ==> path == ""
  {
    var piece, rest := pieces[0], pieces[1..];
    PrefixInTwo(piece, Concat(rest), path);
    var tail := path[|piece|..];
    if pattern[0] == '$' {
      assert pieces[..0] == [] && Concat(pieces[..0]) == "";
    }
    forall i | 0 <= i < |rest| && pattern[1..][i] == '$' ensures Concat(rest[..i]) == tail {
      assert pattern[i + 1] == '$';
      PiecesBefore(pieces, i, path, tail);
    }
  }

  /** The translation preserves the meaning of every pattern on every path, stars staying within a line. */
  lemma TranslationPreservesMeaning(pattern: string, path: string)
    ensures RegexMatches(Source(pattern), path) <==> exists pieces :: Fits(pattern, path, pieces, true)
  {
    RegexFollowsPattern(pattern, path);
    if Matches(pattern, path, true) {
      var pieces := MatchesFits(pattern, path, true);
    }
    if pieces :| Fits(pattern, path, pieces, true) {
      FitsMatches(pattern, path, pieces, true);
    }
  }

  lemma {:induction false} OneLineMatches(pattern: string, path: string)
    requires OneLine(path)
    ensures Matches(pattern, path, true) <==> Matches(pattern, path, false)
    decreases |pattern|
  {
    if pattern != "" {
      forall k | 0 <= k <= |path| ensures Matches(pattern[1..], path[k..], true) <==> Matches(pattern[1..], path[k..], false) {
        OneLineMatches(pattern[1..], path[k..]);
      }
      if path != "" { OneLineMatches(pattern[1..], path[1..]); }
      OneLineMatches(pattern[1..], path);
    }
  }

  lemma AgreesOnOneLine(pattern: string, path: string)
    requires OneLine(path)
    ensures RegexMatches(Source(pattern), path) <==> Means(pattern, path)
  {
    RegexFollowsPattern(pattern, path);
    OneLineMatches(pattern, path);
    MeansIsMatching(pattern, path);
  }

  lemma MeansIsMatching(pattern: string, path: string)
    ensures Means(pattern, path) <==> Matches(pattern, path, false)
  {
    if Matches(pattern, path, false) {
      var pieces := MatchesFits(pattern, path, false);
    }
    if pieces :| Fits(pattern, path, pieces, false) {
      FitsMatches(pattern, path, pieces, false);
    }
  }

  // ---- What the standard means ----------------------------------------------

  /**
   * Section 2.2.3 of RFC 9309: `*` stands for any text, and `$` designates the end of the pattern.
   * Anywhere but at the end it is given no meaning there, and is an ordinary character here.
   */
  predicate Standard(pattern: string, path: string)
    decreases |pattern|
  {
    if pattern == "" then true
    else if pattern == "$" then path == ""
    else if pattern[0] == '*' then exists k :: 0 <= k <= |path| && Standard(pattern[1..], path[k..])
    else path != "" && path[0] == pattern[0] && Standard(pattern[1..], path[1..])
  }

  /** No `$` before the last character. */
  predicate DollarAtEndOnly(pattern: string) {
    forall i :: 0 <= i < |pattern| - 1 ==> pattern[i] != '$'
  }

  lemma {:induction false} StandardIsMatching(pattern: string, path: string)
    requires DollarAtEndOnly(pattern)
    ensures Standard(pattern, path) <==> Matches(pattern, path, false)
    decreases |pattern|
  {
    if pattern == "$" {
      assert pattern[1..] == "";
    } else if pattern != "" {
      var rest := pattern[1..];
      assert pattern[0] != '$' by {
        if |pattern| == 1 { assert pattern == [pattern[0]]; }
      }
      forall i | 0 <= i < |rest| - 1 ensures rest[i] != '$' {
        assert rest[i] == pattern[i + 1];
      }
      if pattern[0] == '*' {
        forall k | 0 <= k <= |path| ensures Standard(rest, path[k..]) <==> Matches(rest, path[k..], false) {
          StandardIsMatching(rest, path[k..]);
        }
      } else if path != "" {
        StandardIsMatching(rest, path[1..]);
      }
    }
  }

  /** Nothing but stars and ends: what can follow an end and still match. */
  predicate Bare(pattern: string) {
    forall i :: 0 <= i < |pattern| ==> pattern[i] == '*' || pattern[i] == '$'
  }

  lemma {:induction false} MatchesNothing(pattern: string)
    ensures Matches(pattern, "", false) <==> Bare(pattern)
    decreases |pattern|
  {
    if pattern != "" {
      var rest := pattern[1..];
      MatchesNothing(rest);
      assert Bare(pattern) <==> (pattern[0] == '*' || pattern[0] == '$') && Bare(rest);
      assert ""[0..] == "";
    }
  }

  /** What follows a `$` must match nothing at all. */
  lemma {:induction false} BareAfterDollar(pattern: string, path: string, i: nat)
    requires Matches(pattern, path, false) && i < |pattern| && pattern[i] == '$'
    ensures Bare(pattern[i + 1..])
    decreases |pattern|
  {
    var rest := pattern[1..];
    if i == 0 {
      MatchesNothing(rest);
    } else {
      assert rest[i - 1] == '$' && rest[i..] == pattern[i + 1..];
      if pattern[0] == '*' {
        var k :| 0 <= k <= |path| && Matches(rest, path[k..], false);
        BareAfterDollar(rest, path[k..], i - 1);
      } else if pattern[0] == '$' {
        BareAfterDollar(rest, path, i - 1);
      } else {
        BareAfterDollar(rest, path[1..], i - 1);
      }
    }
  }

  /** The path a pattern spells, its stars standing for nothing. */
  function Spelt(pattern: string): string {
    if pattern == "" || pattern == "$" then ""
    else if pattern[0] == '*' then Spelt(pattern[1..])
    else [pattern[0]] + Spelt(pattern[1..])
  }

  lemma {:induction false} SpeltIsStandard(pattern: string)
    ensures Standard(pattern, Spelt(pattern))
    decreases |pattern|
  {
    if pattern != "" && pattern != "$" {
      SpeltIsStandard(pattern[1..]);
      if pattern[0] == '*' {
        assert Spelt(pattern)[0..] == Spelt(pattern);
      } else {
        assert Spelt(pattern)[1..] == Spelt(pattern[1..]);
      }
    }
  }

  /** The path spelt before the first `$`, where only stars and ends follow it. */
  lemma {:induction false} SpeltBeforeDollar(pattern: string, i: nat)
    requires i < |pattern| && pattern[i] == '$' && Bare(pattern[i + 1..])
    requires forall j :: 0 <= j < i ==> pattern[j] != '$'
    ensures Matches(pattern, Spelt(pattern[..i]), false) && '$' !in Spelt(pattern[..i])
    decreases |pattern|
  {
    var rest := pattern[1..];
    if i == 0 {
      assert pattern[..0] == "" && Spelt(pattern[..0]) == "";
      MatchesNothing(rest);
    } else {
      var before := pattern[..i];
      assert rest[i - 1] == '$' && rest[i..] == pattern[i + 1..] && before[1..] == rest[..i - 1] && before[0] == pattern[0];
      assert before != "$";
      forall j | 0 <= j < i - 1 ensures rest[j] != '$' {
        assert rest[j] == pattern[j + 1];
      }
      SpeltBeforeDollar(rest, i - 1);
      var path := Spelt(before);
      if pattern[0] == '*' {
        assert path[0..] == path;
      } else {
        assert path[1..] == Spelt(rest[..i - 1]);
      }
    }
  }

  lemma {:induction false} StandardNeedsTheDollar(pattern: string, path: string, i: nat)
    requires Standard(pattern, path) && i < |pattern| - 1 && pattern[i] == '$'
    ensures '$' in path
    decreases |pattern|
  {
    var rest := pattern[1..];
    if i > 0 {
      assert rest[i - 1] == '$';
      if pattern[0] == '*' {
        var k :| 0 <= k <= |path| && Standard(rest, path[k..]);
        StandardNeedsTheDollar(rest, path[k..], i - 1);
      } else {
        StandardNeedsTheDollar(rest, path[1..], i - 1);
      }
    }
  }

  lemma {:induction false} FirstDollar(pattern: string, i: nat) returns (first: nat)
    requires i < |pattern| && pattern[i] == '$'
    ensures first <= i && pattern[first] == '$' && forall j :: 0 <= j < first ==> pattern[j] != '$'
  {
    if j :| 0 <= j < i && pattern[j] == '$' {
      first := FirstDollar(pattern, j);
    } else {
      first := i;
    }
  }

  /** The pattern is read as the standard reads it, on every path, exactly when no `$` stands before its end. */
  lemma DollarReadAlikeIff(pattern: string)
    ensures (forall path :: Means(pattern, path) <==> Standard(pattern, path)) <==> DollarAtEndOnly(pattern)
  {
    if DollarAtEndOnly(pattern) {
      forall path ensures Means(pattern, path) <==> Standard(pattern, path) {
        MeansIsMatching(pattern, path);
        StandardIsMatching(pattern, path);
      }
    } else {
      var some :| 0 <= some < |pattern| - 1 && pattern[some] == '$';
      var i := FirstDollar(pattern, some);
      var path := DifferingPath(pattern, i);
      assert Means(pattern, path) != Standard(pattern, path);
    }
  }

  lemma DifferingPath(pattern: string, i: nat) returns (path: string)
    requires i < |pattern| - 1 && pattern[i] == '$' && forall j :: 0 <= j < i ==> pattern[j] != '$'
    ensures Means(pattern, path) != Standard(pattern, path)
  {
    if Bare(pattern[i + 1..]) {
      path := Spelt(pattern[..i]);
      SpeltBeforeDollar(pattern, i);
      if Standard(pattern, path) {
        StandardNeedsTheDollar(pattern, path, i);
      }
    } else {
      path := Spelt(pattern);
      SpeltIsStandard(pattern);
      if Matches(pattern, path, false) {
        BareAfterDollar(pattern, path, i);
      }
    }
    MeansIsMatching(pattern, path);
  }

  /**
   * Against RFC 9309: the regular expression says the same as the standard of every pattern with no `$`
   * before its end exactly when the path has no line terminator. Where it has one, `*$` should match
   * and does not. `pathForRobots` gives the path and query of a parsed URL, where no such character is left.
   */
  lemma AgreesWithTheStandardIff(path: string)
    ensures (forall pattern :: DollarAtEndOnly(pattern) ==> (RegexMatches(Source(pattern), path) <==> Standard(pattern, path)))
            <==> OneLine(path)
  {
    if OneLine(path) {
      forall pattern | DollarAtEndOnly(pattern) ensures RegexMatches(Source(pattern), path) <==> Standard(pattern, path) {
        AgreesOnOneLine(pattern, path);
        DollarReadAlikeIff(pattern);
      }
    } else {
      StarToTheEnd(path);
      assert DollarAtEndOnly("*$");
      DollarReadAlikeIff("*$");
      assert Standard("*$", path) && !RegexMatches(Source("*$"), path);
    }
  }

  lemma StarToTheEnd(path: string)
    ensures Means("*$", path)
    ensures RegexMatches(Source("*$"), path) <==> OneLine(path)
  {
    var pieces := [path, ""];
    assert pieces[1..] == [""] && [""][1..] == [] && pieces[..1] == [path] && [path][1..] == [];
    assert Concat(pieces) == path + ("" + "") && Concat([path]) == path + "";
    assert Fits("*$", path, pieces, false);
    RegexFollowsPattern("*$", path);
    assert "*$"[1..] == "$" && "$"[1..] == "";
    forall k | 0 <= k <= |path| ensures Matches("$", path[k..], true) <==> k == |path| {
    }
    assert path[..|path|] == path;
  }

  // ---- The verdict ----------------------------------------------------------

  datatype Rule = Rule(allow: bool, path: string)

  /** The path can be cut into pieces, one for each character of the rule, that fit it. */
  ghost predicate Applies(r: Rule, path: string) {
    exists pieces :: Fits(r.path, path, pieces, true)
  }

  /** A rule that applies, with no longer one applying. */
  ghost predicate Longest(rules: seq<Rule>, r: Rule, path: string) {
    r in rules && Applies(r, path) && forall s :: s in rules && Applies(s, path) ==> |s.path| <= |r.path|
  }

  /** Nothing applies, or an Allow is among the longest that do. */
  ghost predicate Allowed(rules: seq<Rule>, path: string) {
    || (forall r :: r in rules ==> !Applies(r, path))
    || (exists r :: r in rules && Longest(rules, r, path) && r.allow)
  }

  /** What the loop has found so far: nothing that applies, or the longest, an Allow where one ties. */
  ghost predicate BestSoFar(rules: seq<Rule>, path: string, bestLength: int, allowed: bool) {
    if bestLength < 0 then allowed && forall r :: r in rules ==> !Applies(r, path)
    else
      && (exists r :: r in rules && Applies(r, path) && |r.path| == bestLength && r.allow == allowed)
      && (forall r :: r in rules && Applies(r, path) ==> |r.path| <= bestLength && (|r.path| == bestLength && r.allow ==> allowed))
  }

  lemma OneMoreRule(rules: seq<Rule>, r: Rule, path: string, bestLength: int, allowed: bool, bestLength': int, allowed': bool)
    requires BestSoFar(rules, path, bestLength, allowed) && bestLength >= -1
    requires if Applies(r, path) && (|r.path| > bestLength || (|r.path| == bestLength && r.allow))
             then bestLength' == |r.path| && allowed' == r.allow
             else bestLength' == bestLength && allowed' == allowed
    ensures BestSoFar(rules + [r], path, bestLength', allowed')
  {
    assert r in rules + [r];
    if bestLength >= 0 {
      var best :| best in rules && Applies(best, path) && |best.path| == bestLength && best.allow == allowed;
      assert best in rules + [r];
    }
  }

  lemma BestIsAllowed(rules: seq<Rule>, path: string, bestLength: int, allowed: bool)
    requires BestSoFar(rules, path, bestLength, allowed)
    ensures allowed == Allowed(rules, path)
  {
    if bestLength >= 0 {
      var best :| best in rules && Applies(best, path) && |best.path| == bestLength && best.allow == allowed;
      assert Longest(rules, best, path);
    }
  }

  method IsAllowed(rules: seq<Rule>, path: string) returns (allowed: bool)
    ensures allowed == Allowed(rules, path)
  {
    var bestLength := -1;
    allowed := true;
    for i := 0 to |rules|
      invariant bestLength >= -1 && BestSoFar(rules[..i], path, bestLength, allowed)
    {
      var rule := rules[i];
      ghost var wasLength, wasAllowed := bestLength, allowed;
      assert rules[..i + 1] == rules[..i] + [rule];
      var regex := PatternToRegex(rule.path);
      TranslationPreservesMeaning(rule.path, path);
      if !RegexMatches(regex, path) {
        OneMoreRule(rules[..i], rule, path, wasLength, wasAllowed, bestLength, allowed);
        continue;
      }
      var length := |rule.path|;
      if length > bestLength || (length == bestLength && rule.allow) {
        bestLength := length;
        allowed := rule.allow;
      }
      OneMoreRule(rules[..i], rule, path, wasLength, wasAllowed, bestLength, allowed);
    }
    assert rules[..|rules|] == rules;
    BestIsAllowed(rules, path, bestLength, allowed);
  }

  /** The order of the rules never matters. */
  lemma RuleOrderIsIrrelevant(rules: seq<Rule>, shuffled: seq<Rule>, path: string)
    requires multiset(rules) == multiset(shuffled)
    ensures Allowed(rules, path) <==> Allowed(shuffled, path)
  {
    SameElements(rules, shuffled);
    forall r: Rule ensures Longest(rules, r, path) <==> Longest(shuffled, r, path) {
    }
  }

  ghost predicate OutranksAllows(rules: seq<Rule>, r: Rule, path: string) {
    forall s :: s in rules && Applies(s, path) && s.allow ==> |s.path| < |r.path|
  }

  /** Disallowed means: a Disallow is the longest that applies, and every Allow that applies is shorter. */
  lemma DisallowedMeans(rules: seq<Rule>, path: string)
    ensures !Allowed(rules, path)
            <==> exists r :: r in rules && Longest(rules, r, path) && !r.allow && OutranksAllows(rules, r, path)
  {
    if !Allowed(rules, path) {
      var first :| first in rules && Applies(first, path);
      var r := SomeLongest(rules, path, first);
      assert r in rules && Longest(rules, r, path);
      forall s | s in rules && Applies(s, path) && s.allow ensures |s.path| < |r.path| {
        assert !Longest(rules, s, path);
      }
      assert OutranksAllows(rules, r, path);
    }
  }

  ghost predicate OutranksDisallows(rules: seq<Rule>, r: Rule, path: string) {
    forall s :: s in rules && Applies(s, path) && !s.allow ==> |s.path| <= |r.path|
  }

  /** Among the added rules one that turns the verdict: a Disallow longer than every Allow, or an Allow as long as every Disallow. */
  ghost predicate Overturns(rules: seq<Rule>, more: seq<Rule>, path: string) {
    if Allowed(rules, path)
    then exists r :: r in more && Applies(r, path) && !r.allow && OutranksAllows(rules + more, r, path)
    else exists r :: r in more && Applies(r, path) && r.allow && OutranksDisallows(rules + more, r, path)
  }

  /** Adding rules changes the verdict exactly when one of them overturns it. */
  lemma MoreRulesShowIff(rules: seq<Rule>, more: seq<Rule>, path: string)
    ensures (Allowed(rules, path) <==> Allowed(rules + more, path)) <==> !Overturns(rules, more, path)
  {
    if Allowed(rules, path) {
      MoreForbidIff(rules, more, path);
    } else {
      MorePermitIff(rules, more, path);
    }
  }

  lemma MoreForbidIff(rules: seq<Rule>, more: seq<Rule>, path: string)
    requires Allowed(rules, path)
    ensures Allowed(rules + more, path) <==> !Overturns(rules, more, path)
  {
    var all := rules + more;
    DisallowedMeans(rules, path);
    DisallowedMeans(all, path);
    if !Allowed(all, path) {
      var r :| r in all && Longest(all, r, path) && !r.allow && OutranksAllows(all, r, path);
      assert r in rules ==> Longest(rules, r, path) && OutranksAllows(rules, r, path);
    }
    if r :| r in more && Applies(r, path) && !r.allow && OutranksAllows(all, r, path) {
      assert r in all;
    }
  }

  lemma MorePermitIff(rules: seq<Rule>, more: seq<Rule>, path: string)
    requires !Allowed(rules, path)
    ensures Allowed(rules + more, path) <==> Overturns(rules, more, path)
  {
    var all := rules + more;
    var d :| d in rules && Applies(d, path);
    assert d in all;
    if Allowed(all, path) {
      var r :| r in all && Longest(all, r, path) && r.allow;
      assert r in rules ==> Longest(rules, r, path);
    }
    if r :| r in more && Applies(r, path) && r.allow && OutranksDisallows(all, r, path) {
      var longest := SomeLongest(all, path, d);
      assert r in all && (!longest.allow ==> Longest(all, r, path));
    }
  }

  lemma {:induction false} SomeLongest(rules: seq<Rule>, path: string, first: Rule) returns (r: Rule)
    requires first in rules && Applies(first, path)
    ensures Longest(rules, r, path)
  {
    var last := rules[|rules| - 1];
    var rest := rules[..|rules| - 1];
    assert rules == rest + [last];
    if first in rest {
      r := SomeLongest(rest, path, first);
      if Applies(last, path) && |last.path| > |r.path| {
        r := last;
      }
    } else {
      assert first == last;
      r := last;
      if other :| other in rest && Applies(other, path) {
        r := SomeLongest(rest, path, other);
        if |last.path| > |r.path| { r := last; }
      }
    }
  }
}
