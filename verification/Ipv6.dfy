/** Which IPv6 addresses are judged by what they are, and which only by how they are written. */
module Ipv6 {
  // The scanner judges the text of an address, by an expression and by prefixes; the lemmas say for which
  // writings that comes to the same as judging the address itself: the IPv4 address it holds, or the block
  // it lies in.

  import opened Text
  import opened Hosts
  import opened Ssrf
  import opened Ipv6Text

  // ---- Groups as numbers ----------------------------------------------------

  function HexDigitOf(c: char): bv32 {
    match c
    case 'a' => 10 case 'b' => 11 case 'c' => 12 case 'd' => 13 case 'e' => 14 case 'f' => 15
    case _ => DigitOf(c)
  }

  predicate HexDigit(c: char) {
    '0' <= c <= '9' || 'a' <= c <= 'f'
  }

  predicate HexGroup(g: string) {
    1 <= |g| <= 4 && forall i :: 0 <= i < |g| ==> HexDigit(g[i])
  }

  function HexNumber(g: string): bv32 {
    if g == "" then 0 else OneMoreHexDigit(HexNumber(g[..|g| - 1]), g[|g| - 1])
  }

  function OneMoreHexDigit(n: bv32, c: char): bv32 {
    n * 16 + HexDigitOf(c)
  }

  function HighGroup(w: bv32): bv32 { w >> 16 }

  function LowGroup(w: bv32): bv32 { w & 0xffff }

  function HexOf(h: string): Option<bv32> {
    if HexGroup(h) then Some(HexNumber(h)) else None
  }

  /** A dotted ending is read as the scanner reads an IPv4 address, and stands for two groups. */
  function QuadOf(v4: string): Option<(bv32, bv32)> {
    match Parsed(v4)
    case None => None
    case Some(w) => Some((HighGroup(w), LowGroup(w)))
  }

  const READING := Reader(HexOf, QuadOf, 0)

  /** The text is a writing of these eight groups. */
  predicate Writes(s: string, g: seq<bv32>) {
    |g| == 8 && Groups(READING, s) == Some(g)
  }

  lemma HexIsTelling(h: string)
    requires HexGroup(h)
    ensures h != "" && ':' !in h && '.' !in h
  {
    assert forall i :: 0 <= i < |h| ==> HexDigit(h[i]) && h[i] != ':' && h[i] != '.';
  }

  lemma ReadingIsTelling()
    ensures Telling(READING)
  {
    forall s | READING.group(s).Some? ensures s != "" && ':' !in s && '.' !in s {
      HexIsTelling(s);
    }
    forall s | READING.quad(s).Some? ensures ':' !in s && '.' in s {
      QuadHasNoColon(s);
    }
  }

  /** The last two groups as one word: where the IPv4 address of a mapped or compatible one stands. */
  function Tail(g: seq<bv32>): bv32
    requires |g| == 8
  {
    TailOf(g[6], g[7])
  }

  function TailOf(high: bv32, low: bv32): bv32 {
    high * 0x1_0000 + low
  }

  lemma TailOfWord(w: bv32)
    ensures TailOf(HighGroup(w), LowGroup(w)) == w
  {
  }

  lemma CapturedIsTail(s: string, g: seq<bv32>, v4: string)
    requires Writes(s, g) && EndsInDotted(s, v4)
    ensures Parsed(v4) == Some(Tail(g))
  {
    EndingIsAfterLastColon(s, v4);
    QuadHasNoColon(v4);
    ReadingIsTelling();
    DottedEndingIsLast(READING, s, g);
    TailOfWord(Parsed(v4).value);
  }

  // ---- Groups by their digits -----------------------------------------------

  lemma OneMoreOf(h: string, n: nat)
    requires n < |h|
    ensures HexNumber(h[..n + 1]) == OneMoreHexDigit(HexNumber(h[..n]), h[n])
  {
    assert h[..n + 1][..n] == h[..n];
  }

  lemma DigitBound(h: string)
    requires HexGroup(h)
    ensures forall i :: 0 <= i < |h| ==> HexDigitOf(h[i]) < 16
  {
    forall i | 0 <= i < |h| ensures HexDigitOf(h[i]) < 16 {
      assert HexDigit(h[i]);
    }
  }

  lemma InFourSteps(h: string)
    requires |h| == 4
    ensures HexNumber(h)
            == OneMoreHexDigit(OneMoreHexDigit(OneMoreHexDigit(OneMoreHexDigit(0, h[0]), h[1]), h[2]), h[3])
  {
    OneMoreOf(h, 0);
    OneMoreOf(h, 1);
    OneMoreOf(h, 2);
    OneMoreOf(h, 3);
    assert h[..4] == h && h[..0] == "";
  }

  /** Four digits are the four nibbles of the group, from the highest down. */
  lemma Nibbles(h: string)
    requires HexGroup(h) && |h| == 4
    ensures HexDigitOf(h[0]) == HexNumber(h) >> 12
    ensures HexDigitOf(h[1]) == (HexNumber(h) >> 8) & 0xf
    ensures HexDigitOf(h[2]) == (HexNumber(h) >> 4) & 0xf
    ensures HexDigitOf(h[3]) == HexNumber(h) & 0xf
  {
    InFourSteps(h);
    DigitBound(h);
    NibblesOf(h[0], h[1], h[2], h[3], HexNumber(h));
  }

  lemma NibblesOf(a: char, b: char, c: char, d: char, v: bv32)
    requires HexDigitOf(a) < 16 && HexDigitOf(b) < 16 && HexDigitOf(c) < 16 && HexDigitOf(d) < 16
    requires v == OneMoreHexDigit(OneMoreHexDigit(OneMoreHexDigit(OneMoreHexDigit(0, a), b), c), d)
    ensures HexDigitOf(a) == v >> 12 && HexDigitOf(b) == (v >> 8) & 0xf
    ensures HexDigitOf(c) == (v >> 4) & 0xf && HexDigitOf(d) == v & 0xf
  {
  }

  /** Fewer digits write a smaller number, by its first digit zero or not so small. */
  lemma FewDigits(h: string)
    requires HexGroup(h) && |h| < 4
    ensures HexNumber(h) < 0x1000
    ensures HexNumber(h) == 0 ==> HexDigitOf(h[0]) == 0
    ensures HexDigitOf(h[0]) == 15 && |h| > 1 ==> HexNumber(h) >= 0xf0
  {
    DigitBound(h);
    assert h[..|h|] == h && h[..0] == "";
    OneMoreOf(h, 0);
    if |h| > 1 { OneMoreOf(h, 1); }
    if |h| > 2 { OneMoreOf(h, 2); }
  }

  lemma DigitIs(c: char)
    requires HexDigit(c)
    ensures HexDigitOf(c) == 15 <==> c == 'f'
    ensures HexDigitOf(c) == 14 <==> c == 'e'
    ensures HexDigitOf(c) == 13 <==> c == 'd'
    ensures HexDigitOf(c) == 12 <==> c == 'c'
    ensures HexDigitOf(c) == 11 <==> c == 'b'
    ensures HexDigitOf(c) == 10 <==> c == 'a'
    ensures HexDigitOf(c) == 9 <==> c == '9'
    ensures HexDigitOf(c) == 8 <==> c == '8'
    ensures HexDigitOf(c) == 2 <==> c == '2'
    ensures HexDigitOf(c) == 1 <==> c == '1'
    ensures HexDigitOf(c) == 0 <==> c == '0'
  {
  }

  /** Numbers by their nibbles, as ranges. */
  lemma Ranges(v: bv32)
    requires v >> 12 <= 0xf
    ensures v >> 12 == 0xf && ((v >> 8) & 0xf == 0xc || (v >> 8) & 0xf == 0xd) <==> 0xfc00 <= v <= 0xfdff
    ensures v >> 12 == 0xf && (v >> 8) & 0xf == 0xf <==> 0xff00 <= v <= 0xffff
    ensures v >> 12 == 0xf && (v >> 8) & 0xf == 0xe && 0x9 <= (v >> 4) & 0xf <= 0xb <==> 0xfe90 <= v <= 0xfebf
    ensures v >> 12 == 0xd && (v >> 8) & 0xf == 0xb && (v >> 4) & 0xf == 0x8 <==> 0xdb80 <= v <= 0xdb8f
  {
  }

  lemma Exactly(v: bv32)
    requires v >> 12 <= 0xf
    ensures v >> 12 == 0x2 && (v >> 8) & 0xf == 0 && (v >> 4) & 0xf == 0 && v & 0xf == 0x1 <==> v == 0x2001
    ensures v >> 12 == 0xf && (v >> 8) & 0xf == 0xf && (v >> 4) & 0xf == 0x9 && v & 0xf == 0xb <==> v == 0xff9b
    ensures v >> 12 == 0xf && (v >> 8) & 0xf == 0xe && (v >> 4) & 0xf == 0x8 && v & 0xf == 0 <==> v == 0xfe80
  {
  }

  lemma DigitsAre(h: string)
    requires HexGroup(h) && |h| == 4
    ensures forall i :: 0 <= i < 4 ==> HexDigit(h[i])
    ensures HexNumber(h) >> 12 <= 0xf
  {
    Nibbles(h);
    DigitBound(h);
  }

  lemma StartsAre(h: string)
    requires HexGroup(h) && |h| == 4
    ensures StartsLikeABlock(h) <==>
      || 0xfc00 <= HexNumber(h) <= 0xfdff || 0xfe90 <= HexNumber(h) <= 0xfebf || 0xff00 <= HexNumber(h) <= 0xffff
  {
    Nibbles(h);
    DigitsAre(h);
    DigitIs(h[0]);
    DigitIs(h[1]);
    DigitIs(h[2]);
    NineToEleven((HexNumber(h) >> 4) & 0xf);
    Ranges(HexNumber(h));
  }

  lemma StartsWithDb8(h: string)
    requires HexGroup(h) && |h| == 4
    ensures StartsWith(h, "db8") <==> 0xdb80 <= HexNumber(h) <= 0xdb8f
  {
    Nibbles(h);
    DigitsAre(h);
    DigitIs(h[0]);
    DigitIs(h[1]);
    DigitIs(h[2]);
    Ranges(HexNumber(h));
  }

  lemma NineToEleven(d: bv32)
    ensures 9 <= d <= 11 <==> d == 9 || d == 10 || d == 11
  {
  }

  lemma GroupsAre(h: string)
    requires HexGroup(h) && |h| == 4
    ensures h == "2001" <==> HexNumber(h) == 0x2001
    ensures h == "ff9b" <==> HexNumber(h) == 0xff9b
    ensures h == "fe80" <==> HexNumber(h) == 0xfe80
  {
    Nibbles(h);
    DigitsAre(h);
    DigitIs(h[0]);
    DigitIs(h[1]);
    DigitIs(h[2]);
    DigitIs(h[3]);
    Exactly(HexNumber(h));
  }

  // ---- What the prefixes amount to ------------------------------------------

  /** Link-local fe80::/10, unique local fc00::/7, multicast ff00::/8, documentation 2001:db8::/32 and NAT64 64:ff9b::/32. */
  predicate InV6Block(g: seq<bv32>)
    requires |g| == 8
  {
    || 0xfe80 <= g[0] <= 0xfebf || 0xfc00 <= g[0] <= 0xfdff || 0xff00 <= g[0] <= 0xffff
    || Documentation(g) || Nat64(g)
  }

  predicate Documentation(g: seq<bv32>)
    requires |g| == 8
  {
    g[0] == 0x2001 && g[1] == 0xdb8
  }

  predicate Nat64(g: seq<bv32>)
    requires |g| == 8
  {
    g[0] == 0x64 && g[1] == 0xff9b
  }

  /** In a block, yet no prefix shows it: fe81 to fe8f, or a leading zero in `0db8` or `0064`. */
  predicate Missed(s: string, g: seq<bv32>)
    requires |g| == 8
  {
    || 0xfe81 <= g[0] <= 0xfe8f
    || (Documentation(g) && Second(s) != "db8")
    || (Nat64(g) && First(s) != "64")
  }

  /** In no block, yet a prefix shows: a first group of fewer than four digits, or a second one from db80 to db8f. */
  predicate Excess(s: string, g: seq<bv32>)
    requires |g| == 8
  {
    || (|First(s)| < 4 && StartsLikeABlock(First(s)))
    || (g[0] == 0x2001 && 0xdb80 <= g[1] <= 0xdb8f)
  }

  predicate StartsLikeABlock(h: string) {
    || StartsWith(h, "fe9") || StartsWith(h, "fea") || StartsWith(h, "feb")
    || StartsWith(h, "fc") || StartsWith(h, "fd") || StartsWith(h, "ff")
  }

  /** The first two groups are those written first, or zero where nothing is written there. */
  predicate Leads(s: string, g: seq<bv32>)
    requires |g| == 8
  {
    && (if First(s) == "" then g[0] == 0 else HexGroup(First(s)) && g[0] == HexNumber(First(s)))
    && (First(s) != "" ==>
          if Second(s) == "" then g[1] == 0 else HexGroup(Second(s)) && g[1] == HexNumber(Second(s)))
  }

  lemma LeadingText(s: string, g: seq<bv32>)
    requires Writes(s, g)
    ensures Leads(s, g)
  {
    ReadingIsTelling();
    LeadingGroups(READING, s, g);
  }

  lemma PrefixInFirst(s: string, prefix: string)
    requires ':' !in prefix
    ensures StartsWith(s, prefix) <==> StartsWith(First(s), prefix)
  {
    var head := First(s);
    if |head| < |prefix| <= |s| {
      assert s[..|prefix|][|head|] == ':';
    }
    if |prefix| <= |head| {
      assert s[..|prefix|] == head[..|prefix|];
    }
  }

  lemma PrefixInTwo(s: string, h: string, prefix: string)
    requires ':' !in h && ':' !in prefix && prefix != ""
    ensures StartsWith(s, h + ":" + prefix) <==> First(s) == h && StartsWith(Second(s), prefix)
  {
    var n, p := |h|, h + ":" + prefix;
    if StartsWith(s, p) {
      assert s == h + [':'] + s[n + 1..];
      BeforeFirst(h, ':', s[n + 1..]);
    }
    if First(s) == h && n < |s| {
      var after := s[n + 1..];
      assert s == h + ":" + after;
      PrefixInFirst(after, prefix);
      assert StartsWith(s, p) <==> StartsWith(after, prefix) by {
        assert |p| <= |s| ==> s[..|p|] == h + ":" + after[..|prefix|];
        assert |p| <= |s| ==> s[..|p|][n + 1..] == after[..|prefix|] && p[n + 1..] == prefix;
      }
    }
  }

  lemma PrefixesUnrolled(s: string)
    ensures HasReservedPrefix(s) <==>
      || StartsWith(s, "fe80") || StartsWith(s, "fe9") || StartsWith(s, "fea") || StartsWith(s, "feb")
      || StartsWith(s, "fc") || StartsWith(s, "fd") || StartsWith(s, "ff")
      || StartsWith(s, "2001:db8") || StartsWith(s, "64:ff9b")
  {
    var t := RESERVED_V6;
    assert |t| == 9;
    assert HasReservedPrefix(s) <==>
      || StartsWith(s, t[0]) || StartsWith(s, t[1]) || StartsWith(s, t[2]) || StartsWith(s, t[3]) || StartsWith(s, t[4])
      || StartsWith(s, t[5]) || StartsWith(s, t[6]) || StartsWith(s, t[7]) || StartsWith(s, t[8]);
  }

  /** The prefixes as tests of the first two groups as they are written. */
  lemma PrefixesByGroup(s: string)
    requires |First(s)| <= 4
    ensures HasReservedPrefix(s) <==>
      || First(s) == "fe80" || StartsLikeABlock(First(s))
      || (First(s) == "2001" && StartsWith(Second(s), "db8")) || (First(s) == "64" && StartsWith(Second(s), "ff9b"))
  {
    PrefixesUnrolled(s);
    PrefixInFirst(s, "fe80");
    PrefixInFirst(s, "fe9");
    PrefixInFirst(s, "fea");
    PrefixInFirst(s, "feb");
    PrefixInFirst(s, "fc");
    PrefixInFirst(s, "fd");
    PrefixInFirst(s, "ff");
    PrefixInTwo(s, "2001", "db8");
    PrefixInTwo(s, "64", "ff9b");
    assert "2001" + ":" + "db8" == "2001:db8" && "64" + ":" + "ff9b" == "64:ff9b";
  }

  /** The first group is written with four digits, or it is a small number. */
  lemma FirstIs(h: string)
    requires HexGroup(h)
    ensures if |h| == 4
            then
              && (StartsLikeABlock(h) <==>
                    || 0xfc00 <= HexNumber(h) <= 0xfdff || 0xfe90 <= HexNumber(h) <= 0xfebf || 0xff00 <= HexNumber(h) <= 0xffff)
              && (h == "fe80" <==> HexNumber(h) == 0xfe80)
              && (h == "2001" <==> HexNumber(h) == 0x2001)
            else HexNumber(h) < 0x1000 && h != "fe80" && h != "2001"
  {
    if |h| == 4 {
      StartsAre(h);
      GroupsAre(h);
    } else {
      FewDigits(h);
    }
  }

  /** The second group, as far as the prefixes look at it. */
  lemma SecondIs(h: string)
    requires HexGroup(h)
    ensures StartsWith(h, "db8") <==> h == "db8" || 0xdb80 <= HexNumber(h) <= 0xdb8f
    ensures StartsWith(h, "ff9b") <==> HexNumber(h) == 0xff9b
    ensures h == "db8" ==> HexNumber(h) == 0xdb8
  {
    if |h| == 4 {
      StartsWithDb8(h);
      GroupsAre(h);
    } else {
      FewDigits(h);
      if h == "db8" {
        ThreeDigits(h);
      }
    }
  }

  lemma ThreeDigits(h: string)
    requires h == "db8"
    ensures HexNumber(h) == 0xdb8
  {
    OneMoreOf(h, 0);
    OneMoreOf(h, 1);
    OneMoreOf(h, 2);
    assert h[..3] == h && h[..0] == "";
  }

  lemma TwoDigits(h: string)
    requires h == "64"
    ensures HexNumber(h) == 0x64
  {
    OneMoreOf(h, 0);
    OneMoreOf(h, 1);
    assert h[..2] == h && h[..0] == "";
  }

  lemma OfFourDigits(s: string, g: seq<bv32>)
    requires |g| == 8 && Leads(s, g) && |First(s)| == 4
    ensures HasReservedPrefix(s) <==> (InV6Block(g) && !Missed(s, g)) || Excess(s, g)
    ensures !(InV6Block(g) && Excess(s, g))
  {
    PrefixesByGroup(s);
    FirstIs(First(s));
    if Second(s) != "" { SecondIs(Second(s)); }
  }

  lemma OfFewerDigits(s: string, g: seq<bv32>)
    requires |g| == 8 && Leads(s, g) && |First(s)| < 4
    ensures HasReservedPrefix(s) <==> (InV6Block(g) && !Missed(s, g)) || Excess(s, g)
    ensures !(InV6Block(g) && Excess(s, g))
  {
    PrefixesByGroup(s);
    FewFirst(s, g);
    SmallFirst(s, g);
  }

  lemma FewFirst(s: string, g: seq<bv32>)
    requires |g| == 8 && Leads(s, g) && |First(s)| < 4
    ensures g[0] < 0x1000 && (StartsLikeABlock(First(s)) ==> g[0] >= 0xf0)
    ensures First(s) == "64" ==> g[0] == 0x64 && (StartsWith(Second(s), "ff9b") <==> g[1] == 0xff9b)
  {
    if First(s) != "" {
      FewDigits(First(s));
      assert HexDigit(First(s)[0]);
      DigitIs(First(s)[0]);
      if StartsLikeABlock(First(s)) { StartsWithF(First(s)); }
    }
    if First(s) == "64" {
      TwoDigits(First(s));
      if Second(s) != "" { SecondIs(Second(s)); }
    }
  }

  lemma StartsWithF(h: string)
    requires StartsLikeABlock(h)
    ensures |h| > 1 && h[0] == 'f'
  {
  }

  lemma SmallFirst(s: string, g: seq<bv32>)
    requires |g| == 8 && g[0] < 0x1000
    ensures InV6Block(g) <==> Nat64(g)
    ensures Missed(s, g) <==> Nat64(g) && First(s) != "64"
    ensures Excess(s, g) <==> |First(s)| < 4 && StartsLikeABlock(First(s))
  {
  }

  /** The prefixes show the reserved blocks but for what they miss, and what they show in excess. */
  lemma PrefixesAmountTo(s: string, g: seq<bv32>)
    requires Writes(s, g)
    ensures HasReservedPrefix(s) <==> (InV6Block(g) && !Missed(s, g)) || Excess(s, g)
    ensures !(InV6Block(g) && Excess(s, g))
  {
    LeadingText(s, g);
    if |First(s)| == 4 { OfFourDigits(s, g); } else { OfFewerDigits(s, g); }
  }

  // ---- Judged by what they are ----------------------------------------------

  /** An IPv4 address inside an IPv6 one: mapped, or compatible. */
  predicate Embeds(g: seq<bv32>)
    requires |g| == 8
  {
    g[0] == g[1] == g[2] == g[3] == g[4] == 0 && (g[5] == 0 || g[5] == 0xffff)
  }

  /** The text ends in a dotted IPv4 address directly after `::` or `::ffff:`, where the expression finds it. */
  ghost predicate Captured(s: string) {
    exists v4 :: EndsInDotted(s, v4)
  }

  const UNSPECIFIED := "::"
  const LOOPBACK := "::1"

  lemma ShortestWritings()
    ensures Writes(UNSPECIFIED, [0, 0, 0, 0, 0, 0, 0, 0])
    ensures Writes(LOOPBACK, [0, 0, 0, 0, 0, 0, 0, 1])
  {
    ReadingIsTelling();
    OneIsOne("1");
    OneGroup(READING, "1", 1, true);
    AfterElision(READING, 7, "1", [1], LOOPBACK);
    NothingButElision();
    assert Zeros(READING, 7) + [1] == [0, 0, 0, 0, 0, 0, 0, 1];
  }

  lemma NothingButElision()
    ensures Groups(READING, UNSPECIFIED) == Some([0, 0, 0, 0, 0, 0, 0, 0])
  {
    assert UNSPECIFIED[2..] == "" && BeforeElision(UNSPECIFIED) == "";
    assert [] + (Zeros(READING, 8) + []) == [0, 0, 0, 0, 0, 0, 0, 0];
  }

  lemma OneIsOne(h: string)
    requires h == "1"
    ensures HexGroup(h) && HexNumber(h) == 1
  {
    OneMoreOf(h, 0);
    assert h[..1] == h && h[..0] == "";
  }

  lemma ShortestAreReserved()
    ensures InTable(0) && InTable(1)
  {
    TableIsIntervals(0, 0, 0, 0);
    TableIsIntervals(0, 0, 0, 1);
  }

  lemma CapturedIsJudgedByTail(ip: string, g: seq<bv32>)
    requires Writes(AddressText(ip), g) && Captured(AddressText(ip))
    ensures BlockedV6(ip) <==> InTable(Tail(g))
  {
    var v4 :| EndsInDotted(AddressText(ip), v4);
    CapturedIsTail(AddressText(ip), g, v4);
    DottedFaresAlike(ip, v4);
  }

  lemma OthersAreJudgedByFirstGroups(ip: string, g: seq<bv32>)
    requires Writes(AddressText(ip), g) && !Captured(AddressText(ip))
    ensures BlockedV6(ip) <==>
      || AddressText(ip) in {UNSPECIFIED, LOOPBACK}
      || (InV6Block(g) && !Missed(AddressText(ip), g)) || Excess(AddressText(ip), g)
  {
    OthersAreJudgedByPrefix(ip);
    PrefixesAmountTo(AddressText(ip), g);
  }

  /**
   * An address that holds an IPv4 address, mapped or compatible, is judged as that address would be exactly
   * when it ends in dotted form directly after `::` or `::ffff:`, or is one of the two shortest texts, or
   * its IPv4 address is not reserved: no other writing is ever held against it.
   */
  lemma EmbeddedFaresAlikeIff(ip: string, g: seq<bv32>)
    requires Writes(AddressText(ip), g) && Embeds(g)
    ensures (BlockedV6(ip) <==> InTable(Tail(g))) <==>
      Captured(AddressText(ip)) || AddressText(ip) in {UNSPECIFIED, LOOPBACK} || !InTable(Tail(g))
  {
    ShortestWritings();
    ShortestAreReserved();
    if Captured(AddressText(ip)) {
      CapturedIsJudgedByTail(ip, g);
    } else {
      OthersAreJudgedByFirstGroups(ip, g);
      ZeroIsNoExcess(AddressText(ip), g);
    }
  }

  lemma ZeroIsNoExcess(s: string, g: seq<bv32>)
    requires Writes(s, g) && g[0] == 0
    ensures !InV6Block(g) && !Excess(s, g)
  {
    LeadingText(s, g);
    SmallFirst(s, g);
    if First(s) != "" && |First(s)| < 4 {
      ZeroStartsNoBlock(First(s));
    }
  }

  lemma ZeroStartsNoBlock(h: string)
    requires HexGroup(h) && |h| < 4 && HexNumber(h) == 0
    ensures !StartsLikeABlock(h)
  {
    ZeroIsWrittenWithZero(h);
    if StartsLikeABlock(h) { StartsWithF(h); }
  }

  lemma ZeroIsWrittenWithZero(h: string)
    requires HexGroup(h) && |h| < 4 && HexNumber(h) == 0
    ensures h[0] == '0'
  {
    FewDigits(h);
    assert HexDigit(h[0]);
    DigitIs(h[0]);
  }

  /** In octets, for a mapped address in whatever writing. */
  lemma MappedFaresAlikeIff(l: Literals, ip: string, g: seq<bv32>, a: bv32, b: bv32, c: bv32, d: bv32)
    requires Octet(a) && Octet(b) && Octet(c) && Octet(d)
    requires !l.isV4(ip) && l.isV6(ip)
    requires Writes(AddressText(ip), g) && Embeds(g) && g[5] == 0xffff && Tail(g) == Word(a, b, c, d)
    ensures (BlockedAddress(l, ip) <==> Reserved(a, b, c)) <==> Captured(AddressText(ip)) || !Reserved(a, b, c)
  {
    EmbeddedFaresAlikeIff(ip, g);
    TableIsIntervals(a, b, c, d);
    ShortestWritings();
  }

  /**
   * Every other address is blocked just when it lies in a reserved block exactly when the blocks' prefixes
   * neither miss it nor show in excess; where a dotted ending is captured that alone is judged, so the two
   * agree when the ending is reserved just when the address is.
   */
  lemma BlocksAreKeptIff(ip: string, g: seq<bv32>)
    requires Writes(AddressText(ip), g) && !Embeds(g)
    ensures (BlockedV6(ip) <==> InV6Block(g)) <==>
      if Captured(AddressText(ip)) then InTable(Tail(g)) <==> InV6Block(g)
      else !Missed(AddressText(ip), g) && !Excess(AddressText(ip), g)
  {
    ShortestWritings();
    if Captured(AddressText(ip)) {
      CapturedIsJudgedByTail(ip, g);
    } else {
      OthersAreJudgedByFirstGroups(ip, g);
      PrefixesAmountTo(AddressText(ip), g);
    }
  }

  // ---- Writings of a mapped address -----------------------------------------

  /** The groups of an IPv4 address as a mapped one. */
  function MappedGroups(w: bv32): seq<bv32> {
    MappedPair(HighGroup(w), LowGroup(w))
  }

  function MappedPair(high: bv32, low: bv32): seq<bv32> {
    [0, 0, 0, 0, 0, 0xffff, high, low]
  }

  lemma MappedIs(high: bv32, low: bv32)
    ensures Mapped(READING, 0xffff, high, low) == MappedPair(high, low)
  {
  }

  lemma ZeroIsZero(h: string)
    requires h == "0"
    ensures HexGroup(h) && HexNumber(h) == 0
  {
    OneMoreOf(h, 0);
    assert h[..1] == h && h[..0] == "";
  }

  lemma MarkIsMark(h: string)
    requires h == "ffff"
    ensures HexGroup(h) && HexNumber(h) == 0xffff
  {
    InFourSteps(h);
  }

  lemma ReadingReadsMarks()
    ensures ReadsMarks(READING, 0xffff)
  {
    ReadingIsTelling();
    ZeroIsZero("0");
    MarkIsMark("ffff");
  }

  lemma ColonBeforeEnding(s: string, q: string)
    requires EndsInDotted(s, q)
    ensures |q| + 2 <= |s|
    ensures s[|s| - |q| - 2] == ':' || (|q| + 7 <= |s| && s[|s| - |q| - 7] == ':')
  {
    var mark := if EndsWith(s, MAPPED + q) then MAPPED else COMPATIBLE;
    assert s[|s| - |mark + q|..][0] == (mark + q)[0] == ':';
  }

  lemma AfterZeroNotCaptured(s: string, v4: string)
    requires DottedQuad(v4) && EndsWith(s, "0:ffff:" + v4)
    ensures !Captured(s)
  {
    QuadHasNoColon(v4);
    var ending, n := "0:ffff:" + v4, |s| - |v4|;
    assert s[n - 7] == s[n - 7..][0] == ending[0] && s[n - 2] == s[n - 7..][5] == ending[5];
    assert s[n - 1] == s[n - 7..][6] == ending[6];
    assert s[n..] == s[n - 7..][7..] == ending[7..] == v4;
    assert s == s[..n] + v4;
    AfterColon(s[..n], v4);
    forall q ensures !EndsInDotted(s, q) {
      if EndsInDotted(s, q) {
        EndingIsAfterLastColon(s, q);
        ColonBeforeEnding(s, q);
      }
    }
  }

  lemma LongerEnding(s: string, middle: string, ending: string)
    requires EndsWith(s, middle) && EndsWith(middle, ending)
    ensures EndsWith(s, ending)
  {
    assert s[|s| - |ending|..] == s[|s| - |middle|..][|middle| - |ending|..];
  }

  lemma ZerosAreNotCaptured(zeros: nat, v4: string)
    requires 0 < zeros <= 5 && DottedQuad(v4)
    ensures !Captured(MappedText(zeros, v4))
  {
    SpeltOutEnds(zeros, v4);
    LongerEnding(MappedText(zeros, v4), SpeltOut(zeros, v4), "0:ffff:" + v4);
    AfterZeroNotCaptured(MappedText(zeros, v4), v4);
  }

  lemma NoneIsCaptured(v4: string)
    requires DottedQuad(v4)
    ensures EndsInDotted(MappedText(0, v4), v4)
  {
    var s := MappedText(0, v4);
    assert s == MAPPED + v4 && s[0..] == s;
  }

  lemma MappedTextIsWriting(zeros: nat, v4: string)
    requires zeros <= 5 && Parsed(v4).Some?
    ensures Writes(MappedText(zeros, v4), MappedGroups(Parsed(v4).value))
  {
    var w := Parsed(v4).value;
    ReadingReadsMarks();
    MappedTextWrites(READING, zeros, v4, 0xffff, HighGroup(w), LowGroup(w));
    MappedIs(HighGroup(w), LowGroup(w));
  }

  /** An uncaptured writing of a mapped address is let through. */
  lemma UncapturedIsLetThrough(ip: string, high: bv32, low: bv32)
    requires Writes(AddressText(ip), MappedPair(high, low)) && !Captured(AddressText(ip))
    ensures !BlockedV6(ip)
  {
    OthersAreJudgedByFirstGroups(ip, MappedPair(high, low));
    ZeroIsNoExcess(AddressText(ip), MappedPair(high, low));
    ShortestWritings();
  }

  /** Of the six writings of a mapped address in dotted form only the one that elides all zeros is judged as it. */
  lemma OnlyAllElidedIsJudged(ip: string, zeros: nat, v4: string)
    requires zeros <= 5 && Parsed(v4).Some? && AddressText(ip) == MappedText(zeros, v4)
    ensures Writes(AddressText(ip), MappedGroups(Parsed(v4).value))
    ensures BlockedV6(ip) <==> zeros == 0 && BlockedV4(v4)
  {
    MappedTextIsWriting(zeros, v4);
    if zeros == 0 {
      NoneIsCaptured(v4);
      DottedFaresAlike(ip, v4);
    } else {
      ZerosAreNotCaptured(zeros, v4);
      UncapturedIsLetThrough(ip, HighGroup(Parsed(v4).value), LowGroup(Parsed(v4).value));
    }
  }

  lemma UndottedIsNotCaptured(s: string, front: string, h: string)
    requires front != "" && front[|front| - 1] == ':' && HexGroup(h) && s == front + h
    ensures !Captured(s)
  {
    HexIsTelling(h);
    AfterColon(front, h);
    assert AfterLastColon(h) == h;
    forall v4 ensures !EndsInDotted(s, v4) {
      if EndsInDotted(s, v4) {
        EndingIsAfterLastColon(s, v4);
        QuadHasNoColon(v4);
      }
    }
  }

  /** With its last two groups in hexadecimal a mapped address is let through, whatever they are. */
  lemma HexadecimalIsLetThrough(ip: string, g: string, h: string)
    requires HexGroup(g) && HexGroup(h) && AddressText(ip) == MAPPED + g + ":" + h
    ensures Writes(AddressText(ip), MappedPair(HexNumber(g), HexNumber(h)))
    ensures !BlockedV6(ip)
  {
    ReadingReadsMarks();
    MappedPairWrites(READING, 0xffff, g, HexNumber(g), h, HexNumber(h), AddressText(ip));
    MappedIs(HexNumber(g), HexNumber(h));
    UndottedIsNotCaptured(AddressText(ip), MAPPED + g + ":", h);
    UncapturedIsLetThrough(ip, HexNumber(g), HexNumber(h));
  }

  // ---- The loopback address, three times ------------------------------------

  lemma SplitInFront(a: string, b: string)
    requires '.' !in a
    ensures Split(a + "." + b) == [a] + Split(b)
  {
    var s := a + "." + b;
    if a == "" {
      assert s[1..] == b;
    } else {
      assert s[0] == a[0] && a[0] in a && s[1..] == a[1..] + "." + b;
      SplitInFront(a[1..], b);
      assert [a[0]] + a[1..] == a;
    }
  }

  lemma OctetsOfLoopback(one: string, zero: string)
    requires one == "127" && zero == "0"
    ensures OctetText(one) && NumberOf(one) == 127 && OctetText(zero) && NumberOf(zero) == 0
    ensures OctetText("1") && NumberOf("1") == 1
  {
    assert one[..2] == "12" && "12"[..1] == "1" && "1"[..0] == "" && zero[..0] == "";
    assert NumberOf("1") == 1 && NumberOf("12") == 12;
  }

  lemma LoopbackIsRead(v4: string)
    requires v4 == "127.0.0.1"
    ensures Parsed(v4) == Some(Word(127, 0, 0, 1))
  {
    LoopbackSplits(v4);
    OctetsOfLoopback("127", "0");
  }

  lemma LoopbackSplits(v4: string)
    requires v4 == "127.0.0.1"
    ensures Split(v4) == ["127", "0", "0", "1"]
  {
    SplitUndotted("1");
    SplitInFront("0", "1");
    SplitInFront("0", "0.1");
    SplitInFront("127", "0.0.1");
    assert "127" + "." + "0.0.1" == v4 && "0" + "." + "0.1" == "0.0.1" && "0" + "." + "1" == "0.1";
  }

  /** With nothing elided the dotted writing is not judged: `127.0.0.1` is reserved, and it is let through. */
  lemma LoopbackInFull(l: Literals, ip: string)
    requires !l.isV4(ip) && l.isV6(ip) && AddressText(ip) == "0:0:0:0:0:ffff:127.0.0.1"
    ensures Writes(AddressText(ip), MappedGroups(Word(127, 0, 0, 1))) && Reserved(127, 0, 0) && !BlockedAddress(l, ip)
  {
    ghost var v4 := AddressText(ip)[15..];
    LoopbackIsRead(v4);
    InFull(ip, v4);
  }

  lemma InFull(ip: string, v4: string)
    requires Parsed(v4).Some? && AddressText(ip) == "0:0:0:0:0:ffff:" + v4
    ensures Writes(AddressText(ip), MappedGroups(Parsed(v4).value)) && !BlockedV6(ip)
  {
    FullText(v4);
    OnlyAllElidedIsJudged(ip, 5, v4);
  }

  lemma FullText(v4: string)
    ensures MappedText(5, v4) == "0:0:0:0:0:ffff:" + v4
  {
    assert SpeltOut(0, v4) == "ffff:" + v4;
    assert SpeltOut(1, v4) == "0:ffff:" + v4;
    assert SpeltOut(2, v4) == "0:0:ffff:" + v4;
    assert SpeltOut(3, v4) == "0:0:0:ffff:" + v4;
    assert SpeltOut(4, v4) == "0:0:0:0:ffff:" + v4;
  }

  /** Nor is the hexadecimal one. */
  lemma LoopbackInHexadecimal(l: Literals, ip: string)
    requires !l.isV4(ip) && l.isV6(ip) && AddressText(ip) == "::ffff:7f00:1"
    ensures Writes(AddressText(ip), MappedGroups(Word(127, 0, 0, 1))) && Reserved(127, 0, 0) && !BlockedAddress(l, ip)
  {
    HighOfLoopback("7f00");
    LowOfLoopback();
    OneIsOne("1");
    assert MAPPED + "7f00" + ":" + "1" == "::ffff:7f00:1";
    HexadecimalIsLetThrough(ip, "7f00", "1");
  }

  lemma HighOfLoopback(g: string)
    requires g == "7f00"
    ensures HexGroup(g) && HexNumber(g) == HighGroup(Word(127, 0, 0, 1))
  {
    InFourSteps(g);
  }

  lemma LowOfLoopback()
    ensures LowGroup(Word(127, 0, 0, 1)) == 1
  {
  }

  // ---- Link-local addresses that no prefix shows ----------------------------

  function TwoGroups(high: bv32, low: bv32): seq<bv32> {
    [high, 0, 0, 0, 0, 0, 0, low]
  }

  /** From `fe81::` to `fe8f::` addresses lie in fe80::/10 and are let through. */
  lemma LinkLocalMissed(ip: string, g: string, h: string)
    requires HexGroup(g) && HexGroup(h) && 0xfe81 <= HexNumber(g) <= 0xfe8f && AddressText(ip) == g + ELISION + h
    ensures Writes(AddressText(ip), TwoGroups(HexNumber(g), HexNumber(h)))
    ensures InV6Block(TwoGroups(HexNumber(g), HexNumber(h))) && !BlockedV6(ip)
  {
    ReadingIsTelling();
    AroundElision(READING, g, HexNumber(g), h, HexNumber(h), AddressText(ip));
    TwoGroupsAre(HexNumber(g), HexNumber(h));
    UndottedIsNotCaptured(AddressText(ip), g + ELISION, h);
    BlocksAreKeptIff(ip, TwoGroups(HexNumber(g), HexNumber(h)));
  }

  lemma TwoGroupsAre(high: bv32, low: bv32)
    ensures [high] + (Zeros(READING, 6) + [low]) == TwoGroups(high, low)
  {
  }
}
