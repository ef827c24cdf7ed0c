/** The eight groups an IPv6 text writes, as section 2.2 of RFC 4291 lays them down. */
module Ipv6Text {
  // Groups stand between colons; one run of zero groups may be elided, and the last two groups may be
  // written in dotted form. How a group and a dotted ending are read is left open here.

  import opened Text
  import opened Hosts
  import opened Ssrf

  datatype Reader<!G> = Reader(group: string -> Option<G>, quad: string -> Option<(G, G)>, zero: G)

  /** Groups have neither colons nor dots, dotted endings no colons. */
  ghost predicate Telling<G>(r: Reader<G>) {
    && (forall s :: r.group(s).Some? ==> s != "" && ':' !in s && '.' !in s)
    && (forall s :: r.quad(s).Some? ==> ':' !in s && '.' in s)
  }

  // ---- Groups ---------------------------------------------------------------

  /** Groups between colons, the last two in dotted form where that is permitted. */
  function GroupsOf<G>(r: Reader<G>, s: string, dotted: bool): Option<seq<G>>
    decreases |s|
  {
    var head := Before(s, ':');
    if |head| == |s| then LastOf(r, s, dotted)
    else Followed(r.group(head), GroupsOf(r, s[|head| + 1..], dotted))
  }

  function LastOf<G>(r: Reader<G>, s: string, dotted: bool): Option<seq<G>> {
    if r.group(s).Some? then Some([r.group(s).value])
    else if dotted && r.quad(s).Some? then Some([r.quad(s).value.0, r.quad(s).value.1])
    else None
  }

  function Followed<G>(first: Option<G>, rest: Option<seq<G>>): Option<seq<G>> {
    if first.Some? && rest.Some? then Some([first.value] + rest.value) else None
  }

  /** What stands on one side of the elision, perhaps nothing. */
  function SideOf<G>(r: Reader<G>, s: string, dotted: bool): Option<seq<G>> {
    if s == "" then Some([]) else GroupsOf(r, s, dotted)
  }

  const ELISION := "::"

  function BeforeElision(s: string): (r: string)
    ensures |r| <= |s| && r == s[..|r|]
    ensures |r| < |s| ==> StartsWith(s[|r|..], ELISION)
  {
    if s == "" || StartsWith(s, ELISION) then "" else [s[0]] + BeforeElision(s[1..])
  }

  function Zeros<G>(r: Reader<G>, n: nat): seq<G> {
    seq(n, _ => r.zero)
  }

  /** The eight groups a text writes; nothing where it writes none. */
  function Groups<G>(r: Reader<G>, s: string): (g: Option<seq<G>>)
    ensures g.Some? ==> |g.value| == 8
  {
    var left := BeforeElision(s);
    if |left| == |s| then
      var all := GroupsOf(r, s, true);
      if all.Some? && |all.value| == 8 then all else None
    else
      Filled(r, SideOf(r, left, false), SideOf(r, s[|left| + |ELISION|..], true))
  }

  /** Zeros stand in for what is elided, one group at the least. */
  function Filled<G>(r: Reader<G>, left: Option<seq<G>>, right: Option<seq<G>>): (g: Option<seq<G>>)
    ensures g.Some? ==> |g.value| == 8
  {
    if left.Some? && right.Some? && |left.value| + |right.value| < 8
    then Some(left.value + (Zeros(r, 8 - |left.value| - |right.value|) + right.value))
    else None
  }

  lemma TextInThree(s: string)
    requires |BeforeElision(s)| < |s|
    ensures |BeforeElision(s)| + 2 <= |s|
    ensures s == BeforeElision(s) + ELISION + s[|BeforeElision(s)| + 2..]
  {
    var n := |BeforeElision(s)|;
    assert s[n..][..2] == s[n..n + 2] == ELISION;
    assert s == s[..n] + s[n..n + 2] + s[n + 2..];
  }

  // ---- The last two groups --------------------------------------------------

  lemma AfterColonOf(s: string)
    requires ':' in s
    ensures |Before(s, ':')| < |s|
    ensures AfterLastColon(s) == AfterLastColon(s[|Before(s, ':')| + 1..])
  {
    var n := |Before(s, ':')|;
    assert s == s[..n + 1] + s[n + 1..];
    AfterColon(s[..n + 1], s[n + 1..]);
  }

  /** The last two groups are those of a dotted ending. */
  ghost predicate EndsInQuad<G>(r: Reader<G>, g: seq<G>, v4: string) {
    |g| >= 2 && r.quad(v4) == Some((g[|g| - 2], g[|g| - 1]))
  }

  lemma {:induction false} DottedEnding<G>(r: Reader<G>, s: string, dotted: bool)
    requires Telling(r) && GroupsOf(r, s, dotted).Some? && '.' in AfterLastColon(s)
    ensures EndsInQuad(r, GroupsOf(r, s, dotted).value, AfterLastColon(s))
    decreases |s|
  {
    if ':' in s {
      AfterColonOf(s);
      var rest := s[|Before(s, ':')| + 1..];
      DottedEnding(r, rest, dotted);
      FollowedEnds(r, r.group(Before(s, ':')), GroupsOf(r, rest, dotted), GroupsOf(r, s, dotted).value, AfterLastColon(s));
    } else {
      BeforeAbsent(s, ':');
    }
  }

  lemma FollowedEnds<G>(r: Reader<G>, first: Option<G>, rest: Option<seq<G>>, g: seq<G>, v4: string)
    requires Followed(first, rest) == Some(g) && EndsInQuad(r, rest.value, v4)
    ensures EndsInQuad(r, g, v4)
  {
  }

  lemma FilledEnds<G>(r: Reader<G>, left: Option<seq<G>>, right: Option<seq<G>>, g: seq<G>, v4: string)
    requires Filled(r, left, right) == Some(g) && EndsInQuad(r, right.value, v4)
    ensures EndsInQuad(r, g, v4)
  {
  }

  lemma DottedEndingIsLast<G>(r: Reader<G>, s: string, g: seq<G>)
    requires Telling(r) && Groups(r, s) == Some(g) && '.' in AfterLastColon(s)
    ensures EndsInQuad(r, g, AfterLastColon(s))
  {
    var left := BeforeElision(s);
    if |left| == |s| {
      DottedEnding(r, s, true);
    } else {
      var right := s[|left| + 2..];
      AfterElided(s, left, right);
      DottedEnding(r, right, true);
      FilledEnds(r, SideOf(r, left, false), GroupsOf(r, right, true), g, AfterLastColon(s));
    }
  }

  lemma AfterElided(s: string, left: string, right: string)
    requires left == BeforeElision(s) && |left| < |s|
    requires |left| + 2 <= |s| && right == s[|left| + 2..] && '.' in AfterLastColon(s)
    ensures AfterLastColon(s) == AfterLastColon(right) && right != ""
  {
    TextInThree(s);
    AfterColon(left + ELISION, right);
    assert AfterLastColon("") == "";
  }

  // ---- The first two groups -------------------------------------------------

  function First(s: string): string {
    Before(s, ':')
  }

  function Second(s: string): string {
    if |First(s)| == |s| then "" else Before(s[|First(s)| + 1..], ':')
  }

  lemma Leading<G>(r: Reader<G>, s: string, dotted: bool, g: seq<G>)
    requires GroupsOf(r, s, dotted) == Some(g) && (dotted ==> |g| > 2)
    ensures g != [] && r.group(First(s)) == Some(g[0])
    ensures |g| > 1 <==> |First(s)| < |s|
    ensures |g| > 1 ==> GroupsOf(r, s[|First(s)| + 1..], dotted) == Some(g[1..])
  {
    var head := Before(s, ':');
    if |head| == |s| {
      assert head == s;
    }
  }

  lemma BeforeInFront(s: string, front: string, rest: string)
    requires s == front + rest && (rest == "" || rest[0] == ':')
    ensures First(s) == First(front)
    ensures |First(front)| < |front| ==> s[|First(s)| + 1..] == front[|First(front)| + 1..] + rest
    ensures |First(front)| == |front| ==> s[|First(s)|..] == rest
  {
    if ':' in front {
      var n := |First(front)|;
      assert front == First(front) + [':'] + front[n + 1..];
      assert s == First(front) + [':'] + (front[n + 1..] + rest);
      BeforeFirst(First(front), ':', front[n + 1..] + rest);
    } else {
      BeforeAbsent(front, ':');
      if rest == "" {
        assert s == front;
      } else {
        assert s == front + [':'] + rest[1..];
        BeforeFirst(front, ':', rest[1..]);
      }
    }
  }

  /** The group as it is read where one is written; zero where nothing is. */
  ghost predicate Stands<G>(r: Reader<G>, text: string, v: G) {
    if text == "" then v == r.zero else r.group(text) == Some(v)
  }

  /** The first two groups are those written first, or zero where nothing is written there. */
  lemma LeadingGroups<G>(r: Reader<G>, s: string, g: seq<G>)
    requires Telling(r) && Groups(r, s) == Some(g)
    ensures Stands(r, First(s), g[0])
    ensures First(s) != "" ==> Stands(r, Second(s), g[1])
  {
    var left := BeforeElision(s);
    if |left| == |s| {
      LeadingOfAll(r, s, g);
    } else {
      TextInThree(s);
      LeadingOfElided(r, s, left, s[|left| + 2..], g);
    }
  }

  lemma LeadingOfElided<G>(r: Reader<G>, s: string, left: string, right: string, g: seq<G>)
    requires Telling(r) && s == left + ELISION + right
    requires Filled(r, SideOf(r, left, false), SideOf(r, right, true)) == Some(g)
    ensures Stands(r, First(s), g[0])
    ensures First(s) != "" ==> Stands(r, Second(s), g[1])
  {
    var l := SideOf(r, left, false);
    FilledStarts(r, l, SideOf(r, right, true), g);
    if left == "" {
      assert s[0] == ELISION[0];
    } else {
      assert s == left + (ELISION + right);
      StartsWithElision(right);
      LeadingOfLeft(r, s, left, ELISION + right, l.value, g);
    }
  }

  lemma StartsWithElision(rest: string)
    ensures StartsWith(ELISION + rest, ELISION)
  {
  }

  lemma LeadingOfAll<G>(r: Reader<G>, s: string, g: seq<G>)
    requires Telling(r) && GroupsOf(r, s, true) == Some(g) && |g| == 8
    ensures Stands(r, First(s), g[0]) && Stands(r, Second(s), g[1])
  {
    Leading(r, s, true, g);
    Leading(r, s[|First(s)| + 1..], true, g[1..]);
  }

  lemma FilledStarts<G>(r: Reader<G>, left: Option<seq<G>>, right: Option<seq<G>>, g: seq<G>)
    requires Filled(r, left, right) == Some(g)
    ensures |left.value| < |g| && left.value <= g && g[|left.value|] == r.zero
  {
  }

  lemma LeadingOfLeft<G>(r: Reader<G>, s: string, left: string, rest: string, l: seq<G>, g: seq<G>)
    requires Telling(r) && s == left + rest && StartsWith(rest, ELISION) && GroupsOf(r, left, false) == Some(l)
    requires |g| == 8 && |l| < 8 && l <= g && g[|l|] == r.zero
    ensures Stands(r, First(s), g[0]) && Stands(r, Second(s), g[1])
  {
    FirstOfLeft(r, s, left, rest, l);
    if |l| > 1 {
      SecondOfLeft(r, s, left, rest, l);
    }
  }

  lemma FirstOfLeft<G>(r: Reader<G>, s: string, left: string, rest: string, l: seq<G>)
    requires s == left + rest && StartsWith(rest, ELISION) && GroupsOf(r, left, false) == Some(l)
    ensures l != [] && r.group(First(s)) == Some(l[0])
    ensures |l| == 1 ==> Second(s) == ""
  {
    assert rest[0] == rest[..2][0] && rest[1] == rest[..2][1];
    BeforeInFront(s, left, rest);
    Leading(r, left, false, l);
    if |l| == 1 {
      assert s[|First(s)|..] == rest && s[|First(s)| + 1..] == rest[1..];
    }
  }

  lemma SecondOfLeft<G>(r: Reader<G>, s: string, left: string, rest: string, l: seq<G>)
    requires s == left + rest && rest != "" && rest[0] == ':' && GroupsOf(r, left, false) == Some(l) && |l| > 1
    ensures r.group(Second(s)) == Some(l[1])
  {
    BeforeInFront(s, left, rest);
    Leading(r, left, false, l);
    var after := left[|First(left)| + 1..];
    Leading(r, after, false, l[1..]);
    BeforeInFront(after + rest, after, rest);
  }

  // ---- Writing groups -------------------------------------------------------

  predicate NoElision(s: string) {
    forall i :: 0 <= i < |s| - 1 ==> !(s[i] == ':' && s[i + 1] == ':')
  }

  lemma {:induction false} NothingElided(s: string)
    requires NoElision(s)
    ensures BeforeElision(s) == s
  {
    if s != "" {
      assert |s| > 1 ==> s[..2][0] == s[0] && s[..2][1] == s[1];
      NothingElided(s[1..]);
      assert s == [s[0]] + s[1..];
    }
  }

  lemma {:induction false} ElisionAfter(g: string, rest: string)
    requires ':' !in g
    ensures BeforeElision(g + ELISION + rest) == g
  {
    var s := g + ELISION + rest;
    if g == "" {
      assert s[..2] == ELISION;
    } else {
      assert s[..2][0] == s[0] == g[0] && g[0] in g;
      assert s[1..] == g[1..] + ELISION + rest;
      ElisionAfter(g[1..], rest);
    }
  }

  /** Nothing is elided, at the front neither. */
  predicate Plain(s: string) {
    s != "" && s[0] != ':' && NoElision(s)
  }

  lemma PlainInFront(h: string, rest: string, text: string)
    requires h != "" && ':' !in h && Plain(rest) && text == h + ":" + rest
    ensures Plain(text)
  {
    forall i | 0 <= i < |text| - 1 ensures !(text[i] == ':' && text[i + 1] == ':') {
      if i < |h| {
        assert text[i] == h[i] && h[i] in h;
      } else if i > |h| {
        assert text[i] == rest[i - |h| - 1] && text[i + 1] == rest[i - |h|];
      }
    }
    assert text[0] == h[0] && h[0] in h;
  }

  lemma OneGroup<G>(r: Reader<G>, h: string, v: G, dotted: bool)
    requires Telling(r) && r.group(h) == Some(v)
    ensures GroupsOf(r, h, dotted) == Some([v])
  {
    BeforeAbsent(h, ':');
  }

  lemma QuadAlone<G>(r: Reader<G>, v4: string, v: G, w: G)
    requires Telling(r) && r.quad(v4) == Some((v, w))
    ensures GroupsOf(r, v4, true) == Some([v, w])
  {
    BeforeAbsent(v4, ':');
  }

  lemma GroupInFront<G>(r: Reader<G>, h: string, v: G, rest: string, g: seq<G>, text: string)
    requires Telling(r) && r.group(h) == Some(v) && GroupsOf(r, rest, true) == Some(g) && text == h + ":" + rest
    ensures GroupsOf(r, text, true) == Some([v] + g)
  {
    assert text == h + [':'] + rest;
    BeforeFirst(h, ':', rest);
    assert text[|h| + 1..] == rest;
  }

  lemma AfterElision<G>(r: Reader<G>, elided: nat, rest: string, g: seq<G>, text: string)
    requires rest != "" && GroupsOf(r, rest, true) == Some(g) && text == ELISION + rest
    requires elided > 0 && elided + |g| == 8
    ensures Groups(r, text) == Some(Zeros(r, elided) + g)
  {
    TextElided(rest, text);
    NothingInFront(Zeros(r, elided) + g);
    assert Filled(r, Some([]), GroupsOf(r, rest, true)) == Some([] + (Zeros(r, elided) + g));
  }

  lemma TextElided(rest: string, text: string)
    requires text == ELISION + rest
    ensures BeforeElision(text) == "" && text[2..] == rest
  {
    assert text[..2] == ELISION;
  }

  lemma NothingInFront<G>(g: seq<G>)
    ensures [] + g == g
  {
  }

  lemma AroundElision<G>(r: Reader<G>, g: string, v: G, h: string, w: G, text: string)
    requires Telling(r) && r.group(g) == Some(v) && r.group(h) == Some(w) && text == g + ELISION + h
    ensures Groups(r, text) == Some([v] + (Zeros(r, 6) + [w]))
  {
    OneGroup(r, g, v, false);
    OneGroup(r, h, w, true);
    ElisionAfter(g, h);
    assert text[|g| + 2..] == h;
  }

  // ---- Mapped addresses -----------------------------------------------------

  /** The address in dotted form after so many zero groups written out and `ffff`. */
  function SpeltOut(zeros: nat, v4: string): string {
    if zeros == 0 then "ffff" + ":" + v4 else "0" + ":" + SpeltOut(zeros - 1, v4)
  }

  /** The writing of a mapped address with so many of its five zero groups written out, the others elided. */
  function MappedText(zeros: nat, v4: string): string {
    if zeros == 5 then SpeltOut(5, v4) else ELISION + SpeltOut(zeros, v4)
  }

  function Mapped<G>(r: Reader<G>, mark: G, v: G, w: G): seq<G> {
    Zeros(r, 5) + [mark, v, w]
  }

  lemma {:induction false} SpeltOutIsPlain(zeros: nat, v4: string)
    requires v4 != "" && ':' !in v4
    ensures Plain(SpeltOut(zeros, v4))
  {
    if zeros == 0 {
      assert v4[0] in v4 && forall i :: 0 <= i < |v4| ==> v4[i] in v4;
      PlainInFront("ffff", v4, SpeltOut(0, v4));
    } else {
      SpeltOutIsPlain(zeros - 1, v4);
      PlainInFront("0", SpeltOut(zeros - 1, v4), SpeltOut(zeros, v4));
    }
  }

  /** How the two groups that every mapped address has are read. */
  ghost predicate ReadsMarks<G>(r: Reader<G>, mark: G) {
    Telling(r) && r.group("0") == Some(r.zero) && r.group("ffff") == Some(mark)
  }

  lemma OneMoreZero<G>(r: Reader<G>, zeros: nat, tail: seq<G>)
    ensures Zeros(r, zeros + 1) + tail == [r.zero] + (Zeros(r, zeros) + tail)
    ensures Zeros(r, 0) + tail == tail
  {
  }

  lemma ZerosInFront<G>(r: Reader<G>, zeros: nat, more: nat, tail: seq<G>)
    ensures Zeros(r, more) + (Zeros(r, zeros) + tail) == Zeros(r, more + zeros) + tail
  {
  }

  lemma InARow<G>(one: G, two: G, three: G)
    ensures [one] + [two] == [one, two] && [one] + [two, three] == [one, two, three]
  {
  }

  lemma MarkWrites<G>(r: Reader<G>, mark: G, rest: string, v: G, w: G, text: string)
    requires ReadsMarks(r, mark) && GroupsOf(r, rest, true) == Some([v, w]) && text == "ffff" + ":" + rest
    ensures GroupsOf(r, text, true) == Some([mark, v, w])
  {
    GroupInFront(r, "ffff", mark, rest, [v, w], text);
    InARow(mark, v, w);
  }

  lemma ZeroWrites<G>(r: Reader<G>, mark: G, rest: string, zeros: nat, tail: seq<G>, text: string)
    requires ReadsMarks(r, mark) && GroupsOf(r, rest, true) == Some(Zeros(r, zeros) + tail) && text == "0" + ":" + rest
    ensures GroupsOf(r, text, true) == Some(Zeros(r, zeros + 1) + tail)
  {
    GroupInFront(r, "0", r.zero, rest, Zeros(r, zeros) + tail, text);
    OneMoreZero(r, zeros, tail);
  }

  lemma {:induction false} SpeltOutWrites<G>(r: Reader<G>, zeros: nat, v4: string, mark: G, v: G, w: G)
    requires ReadsMarks(r, mark) && r.quad(v4) == Some((v, w))
    ensures GroupsOf(r, SpeltOut(zeros, v4), true) == Some(Zeros(r, zeros) + [mark, v, w])
    decreases zeros
  {
    if zeros == 0 {
      QuadAlone(r, v4, v, w);
      MarkWrites(r, mark, v4, v, w, SpeltOut(0, v4));
      OneMoreZero(r, 0, [mark, v, w]);
    } else {
      SpeltOutWrites(r, zeros - 1, v4, mark, v, w);
      ZeroWrites(r, mark, SpeltOut(zeros - 1, v4), zeros - 1, [mark, v, w], SpeltOut(zeros, v4));
    }
  }

  lemma NothingElidedWrites<G>(r: Reader<G>, text: string, g: seq<G>)
    requires NoElision(text) && GroupsOf(r, text, true) == Some(g) && |g| == 8
    ensures Groups(r, text) == Some(g)
  {
    NothingElided(text);
  }

  lemma MappedTextWrites<G>(r: Reader<G>, zeros: nat, v4: string, mark: G, v: G, w: G)
    requires zeros <= 5 && ReadsMarks(r, mark) && r.quad(v4) == Some((v, w))
    ensures Groups(r, MappedText(zeros, v4)) == Some(Mapped(r, mark, v, w))
  {
    SpeltOutIsPlain(zeros, v4);
    SpeltOutWrites(r, zeros, v4, mark, v, w);
    if zeros == 5 {
      NothingElidedWrites(r, SpeltOut(5, v4), Mapped(r, mark, v, w));
    } else {
      ElidedWrites(r, zeros, SpeltOut(zeros, v4), [mark, v, w], MappedText(zeros, v4));
    }
  }

  lemma ElidedWrites<G>(r: Reader<G>, zeros: nat, rest: string, tail: seq<G>, text: string)
    requires zeros < 5 && rest != "" && GroupsOf(r, rest, true) == Some(Zeros(r, zeros) + tail) && |tail| == 3
    requires text == ELISION + rest
    ensures Groups(r, text) == Some(Zeros(r, 5) + tail)
  {
    AfterElision(r, 5 - zeros, rest, Zeros(r, zeros) + tail, text);
    ZerosInFront(r, zeros, 5 - zeros, tail);
  }

  lemma MappedPairWrites<G>(r: Reader<G>, mark: G, g: string, v: G, h: string, w: G, text: string)
    requires ReadsMarks(r, mark) && r.group(g) == Some(v) && r.group(h) == Some(w) && text == MAPPED + g + ":" + h
    ensures Groups(r, text) == Some(Mapped(r, mark, v, w))
  {
    var pair := g + ":" + h;
    OneGroup(r, h, w, true);
    GroupInFront(r, g, v, h, [w], pair);
    InARow(v, w, w);
    MarkedWrites(r, mark, pair, v, w, text);
  }

  lemma MarkedWrites<G>(r: Reader<G>, mark: G, rest: string, v: G, w: G, text: string)
    requires ReadsMarks(r, mark) && GroupsOf(r, rest, true) == Some([v, w]) && text == MAPPED + rest
    ensures Groups(r, text) == Some(Mapped(r, mark, v, w))
  {
    var marked := "ffff" + ":" + rest;
    MarkWrites(r, mark, rest, v, w, marked);
    MarkedText(rest);
    AfterElision(r, 5, marked, [mark, v, w], text);
  }

  lemma MarkedText(rest: string)
    ensures MAPPED + rest == ELISION + ("ffff" + ":" + rest)
  {
  }

  lemma {:induction false} SpeltOutEnds(zeros: nat, v4: string)
    ensures EndsWith(SpeltOut(zeros, v4), (if zeros == 0 then "ffff:" else "0:ffff:") + v4)
  {
    if zeros == 0 {
      assert SpeltOut(0, v4) == "ffff:" + v4;
    } else if zeros == 1 {
      assert SpeltOut(0, v4) == "ffff:" + v4 && SpeltOut(1, v4) == "0:ffff:" + v4;
    } else {
      SpeltOutEnds(zeros - 1, v4);
      var s, ending := SpeltOut(zeros - 1, v4), "0:ffff:" + v4;
      assert SpeltOut(zeros, v4)[2..] == s;
      assert SpeltOut(zeros, v4)[|s| + 2 - |ending|..] == s[|s| - |ending|..];
    }
  }
}
