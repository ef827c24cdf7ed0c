/**
 * Where the scanner may connect: IPv4 ranges tested with 32-bit masks, IPv4 addresses carried inside
 * IPv6 ones, the shape of a URL, and the decision over all of a name's resolved addresses. URL parsing,
 * DNS and telling an IP literal from a name are oracles.
 */
module Ssrf {
  import opened Text
  import opened Hosts

  // ---- Addresses as words ---------------------------------------------------

  predicate Octet(x: bv32) { x <= 255 }

  function Append(v: bv32, octet: bv32): bv32 {
    v * 256 + octet
  }

  function Word(a: bv32, b: bv32, c: bv32, d: bv32): bv32 {
    Append(Append(Append(Append(0, a), b), c), d)
  }

  predicate Digits(part: string) {
    1 <= |part| <= 3 && forall i :: 0 <= i < |part| ==> '0' <= part[i] <= '9'
  }

  function DigitOf(c: char): bv32 {
    match c
    case '1' => 1 case '2' => 2 case '3' => 3 case '4' => 4 case '5' => 5
    case '6' => 6 case '7' => 7 case '8' => 8 case '9' => 9 case _ => 0
  }

  /** The number one to three digits write; a leading zero is read as such, not refused. */
  function NumberOf(part: string): bv32 {
    if part == "" then 0 else OneMoreDigit(NumberOf(part[..|part| - 1]), part[|part| - 1])
  }

  function OneMoreDigit(n: bv32, c: char): bv32 {
    n * 10 + DigitOf(c)
  }

  predicate OctetText(part: string) {
    Digits(part) && NumberOf(part) <= 255
  }

  /** Four octets between dots, or nothing. */
  function Parsed(ip: string): Option<bv32> {
    var parts := Split(ip);
    if |parts| == 4 && forall i :: 0 <= i < 4 ==> OctetText(parts[i])
    then Some(Word(NumberOf(parts[0]), NumberOf(parts[1]), NumberOf(parts[2]), NumberOf(parts[3])))
    else None
  }

  /** The running value after the first `n` parts. */
  function Running(parts: seq<string>, n: nat): bv32
    requires n <= |parts|
  {
    if n == 0 then 0 else Append(Running(parts, n - 1), NumberOf(parts[n - 1]))
  }

  method Ipv4ToInt(ip: string) returns (value: Option<bv32>)
    ensures value == Parsed(ip)
  {
    var parts := Split(ip);
    if |parts| != 4 {
      return None;
    }
    var v: bv32 := 0;
    for i := 0 to |parts|
      invariant v == Running(parts, i) && forall j :: 0 <= j < i ==> OctetText(parts[j])
    {
      if !Digits(parts[i]) {
        return None;
      }
      var octet := NumberOf(parts[i]);
      if octet > 255 {
        return None;
      }
      v := Append(v, octet);
    }
    RunningIsWord(parts);
    value := Some(v);
  }

  lemma RunningIsWord(parts: seq<string>)
    requires |parts| == 4
    ensures Running(parts, 4) == Word(NumberOf(parts[0]), NumberOf(parts[1]), NumberOf(parts[2]), NumberOf(parts[3]))
  {
    assert Running(parts, 0) == 0;
    assert Running(parts, 1) == Append(Running(parts, 0), NumberOf(parts[0]));
    assert Running(parts, 2) == Append(Running(parts, 1), NumberOf(parts[1]));
    assert Running(parts, 3) == Append(Running(parts, 2), NumberOf(parts[2]));
  }

  // ---- Masks are intervals --------------------------------------------------

  /** A network in dotted form and the length of its prefix. */
  datatype Range = Range(a: bv32, b: bv32, c: bv32, d: bv32, prefix: nat)

  function Base(r: Range): bv32 {
    Word(r.a, r.b, r.c, r.d)
  }

  function Mask(prefix: nat): bv32
    requires prefix <= 32
  {
    if prefix == 0 then 0 else 0xffff_ffff << (32 - prefix)
  }

  const BLOCKED_IPV4 := [
    Range(0, 0, 0, 0, 8), Range(10, 0, 0, 0, 8), Range(100, 64, 0, 0, 10), Range(127, 0, 0, 0, 8),
    Range(169, 254, 0, 0, 16), Range(172, 16, 0, 0, 12), Range(192, 0, 0, 0, 24), Range(192, 0, 2, 0, 24),
    Range(192, 168, 0, 0, 16), Range(198, 18, 0, 0, 15), Range(198, 51, 100, 0, 24), Range(203, 0, 113, 0, 24),
    Range(224, 0, 0, 0, 4), Range(240, 0, 0, 0, 4)]

  predicate InRange(value: bv32, r: Range) {
    r.prefix <= 32 && (value & Mask(r.prefix)) == (Base(r) & Mask(r.prefix))
  }

  predicate InTable(value: bv32) {
    exists i :: 0 <= i < |BLOCKED_IPV4| && InRange(value, BLOCKED_IPV4[i])
  }

  method InAnyRange(value: bv32, table: seq<Range>) returns (inside: bool)
    ensures inside <==> exists i :: 0 <= i < |table| && InRange(value, table[i])
  {
    for i := 0 to |table|
      invariant forall j :: 0 <= j < i ==> !InRange(value, table[j])
    {
      if InRange(value, table[i]) {
        return true;
      }
    }
    inside := false;
  }

  /** An address that does not read as four octets is refused rather than guessed at. */
  method IsBlockedIpv4(ip: string) returns (blocked: bool)
    ensures blocked <==> Parsed(ip).None? || InTable(Parsed(ip).value)
  {
    var value := Ipv4ToInt(ip);
    if value.None? {
      return true;
    }
    blocked := InTheTable(value.value);
  }

  method InTheTable(value: bv32) returns (inside: bool)
    ensures inside == InTable(value)
  {
    inside := InAnyRange(value, BLOCKED_IPV4);
  }

  /** All ones from some bit down: what a mask leaves free. */
  predicate LowBits(x: bv32) {
    x & (x + 1) == 0
  }

  /** How far the last address of a range lies past its first: one less than two to the bits left free. */
  function LastOffset(prefix: nat): bv32
    requires prefix <= 32
  {
    if prefix == 0 then 0xffff_ffff else (1 << (32 - prefix)) - 1
  }

  /** The mask of every prefix length leaves free exactly the offsets within its range. */
  lemma MaskLeavesLastOffset(prefix: nat)
    requires prefix <= 32
    ensures Mask(prefix) == !LastOffset(prefix) && LowBits(LastOffset(prefix))
  {
  }

  /** So agreeing with the network under a mask is lying no further past it than the bits left free reach. */
  lemma NearMeansAgreeing(value: bv32, base: bv32, free: bv32)
    requires LowBits(free) && value - (base & !free) <= free
    ensures value & !free == base & !free
  {
  }

  lemma AgreeingMeansNear(value: bv32, base: bv32, free: bv32)
    requires value & !free == base & !free
    ensures value - (base & !free) <= free
  {
    assert value - (value & !free) == value & free;
  }

  /** The intervals of octets the table stands for, in its order. */
  predicate Reserved(a: bv32, b: bv32, c: bv32) {
    || a == 0 || a == 10 || (a == 100 && 64 <= b < 128) || a == 127
    || (a == 169 && b == 254) || (a == 172 && 16 <= b < 32) || (a == 192 && b == 0 && c == 0) || (a == 192 && b == 0 && c == 2)
    || (a == 192 && b == 168) || (a == 198 && 18 <= b < 20) || (a == 198 && b == 51 && c == 100) || (a == 203 && b == 0 && c == 113)
    || 224 <= a < 240 || 240 <= a
  }

  lemma EightBitRanges(a: bv32, b: bv32, c: bv32, d: bv32)
    requires Octet(a) && Octet(b) && Octet(c) && Octet(d)
    ensures InRange(Word(a, b, c, d), Range(0, 0, 0, 0, 8)) <==> a == 0
    ensures InRange(Word(a, b, c, d), Range(10, 0, 0, 0, 8)) <==> a == 10
    ensures InRange(Word(a, b, c, d), Range(127, 0, 0, 0, 8)) <==> a == 127
  {
    assert Mask(8) == 0xff00_0000;
  }

  lemma CoarseRanges(a: bv32, b: bv32, c: bv32, d: bv32)
    requires Octet(a) && Octet(b) && Octet(c) && Octet(d)
    ensures InRange(Word(a, b, c, d), Range(100, 64, 0, 0, 10)) <==> a == 100 && 64 <= b < 128
    ensures InRange(Word(a, b, c, d), Range(172, 16, 0, 0, 12)) <==> a == 172 && 16 <= b < 32
    ensures InRange(Word(a, b, c, d), Range(198, 18, 0, 0, 15)) <==> a == 198 && 18 <= b < 20
    ensures InRange(Word(a, b, c, d), Range(224, 0, 0, 0, 4)) <==> 224 <= a < 240
    ensures InRange(Word(a, b, c, d), Range(240, 0, 0, 0, 4)) <==> 240 <= a
  {
    assert Mask(4) == 0xf000_0000 && Mask(10) == 0xffc0_0000 && Mask(12) == 0xfff0_0000 && Mask(15) == 0xfffe_0000;
  }

  lemma SixteenBitRanges(a: bv32, b: bv32, c: bv32, d: bv32)
    requires Octet(a) && Octet(b) && Octet(c) && Octet(d)
    ensures InRange(Word(a, b, c, d), Range(169, 254, 0, 0, 16)) <==> a == 169 && b == 254
    ensures InRange(Word(a, b, c, d), Range(192, 168, 0, 0, 16)) <==> a == 192 && b == 168
  {
    assert Mask(16) == 0xffff_0000;
  }

  lemma NarrowRanges(a: bv32, b: bv32, c: bv32, d: bv32)
    requires Octet(a) && Octet(b) && Octet(c) && Octet(d)
    ensures InRange(Word(a, b, c, d), Range(192, 0, 0, 0, 24)) <==> a == 192 && b == 0 && c == 0
    ensures InRange(Word(a, b, c, d), Range(192, 0, 2, 0, 24)) <==> a == 192 && b == 0 && c == 2
    ensures InRange(Word(a, b, c, d), Range(198, 51, 100, 0, 24)) <==> a == 198 && b == 51 && c == 100
    ensures InRange(Word(a, b, c, d), Range(203, 0, 113, 0, 24)) <==> a == 203 && b == 0 && c == 113
  {
    assert Mask(24) == 0xffff_ff00;
  }

  /** An address is in the blocked table exactly when its octets lie in one of the reserved intervals. */
  lemma TableIsIntervals(a: bv32, b: bv32, c: bv32, d: bv32)
    requires Octet(a) && Octet(b) && Octet(c) && Octet(d)
    ensures InTable(Word(a, b, c, d)) <==> Reserved(a, b, c)
  {
    EightBitRanges(a, b, c, d);
    CoarseRanges(a, b, c, d);
    SixteenBitRanges(a, b, c, d);
    NarrowRanges(a, b, c, d);
    var w := Word(a, b, c, d);
    TableUnrolled((r: Range) => InRange(w, r));
  }

  /** Some range of the table meets a test exactly when one of the fourteen does. */
  lemma TableUnrolled(meets: Range -> bool)
    ensures (exists i :: 0 <= i < |BLOCKED_IPV4| && meets(BLOCKED_IPV4[i])) <==>
      || meets(Range(0, 0, 0, 0, 8)) || meets(Range(10, 0, 0, 0, 8)) || meets(Range(100, 64, 0, 0, 10))
      || meets(Range(127, 0, 0, 0, 8)) || meets(Range(169, 254, 0, 0, 16)) || meets(Range(172, 16, 0, 0, 12))
      || meets(Range(192, 0, 0, 0, 24)) || meets(Range(192, 0, 2, 0, 24)) || meets(Range(192, 168, 0, 0, 16))
      || meets(Range(198, 18, 0, 0, 15)) || meets(Range(198, 51, 100, 0, 24)) || meets(Range(203, 0, 113, 0, 24))
      || meets(Range(224, 0, 0, 0, 4)) || meets(Range(240, 0, 0, 0, 4))
  {
    var t := BLOCKED_IPV4;
    assert |t| == 14;
    assert (exists i :: 0 <= i < |t| && meets(t[i])) <==>
      || meets(t[0]) || meets(t[1]) || meets(t[2]) || meets(t[3]) || meets(t[4]) || meets(t[5]) || meets(t[6])
      || meets(t[7]) || meets(t[8]) || meets(t[9]) || meets(t[10]) || meets(t[11]) || meets(t[12]) || meets(t[13]);
  }

  /** A leading zero changes neither whether a part is read nor as what: `01` is the octet one. */
  lemma LeadingZeroIsRead(part: string)
    requires |part| <= 2 && Digits(part)
    ensures OctetText("0" + part) <==> OctetText(part)
    ensures NumberOf("0" + part) == NumberOf(part)
    ensures OctetText("01") && NumberOf("01") == 1
  {
    ZeroInFront(part);
    ZeroInFront("1");
    assert "0" + "1" == "01" && "1"[..0] == "";
  }

  lemma SameStep(a: string, b: string, c: char, longer: string, part: string)
    requires NumberOf(a) == NumberOf(b)
    requires longer != "" && part != "" && longer[..|longer| - 1] == a && part[..|part| - 1] == b
    requires longer[|longer| - 1] == c == part[|part| - 1]
    ensures NumberOf(longer) == NumberOf(part)
  {
  }

  lemma {:induction false} ZeroInFront(part: string)
    ensures NumberOf("0" + part) == NumberOf(part)
  {
    var longer := "0" + part;
    if part == "" {
      assert longer[..0] == "" && longer[0] == '0';
    } else {
      var rest := part[..|part| - 1];
      ZeroInFront(rest);
      assert longer[..|longer| - 1] == "0" + rest && longer[|longer| - 1] == part[|part| - 1];
      SameStep("0" + rest, rest, part[|part| - 1], longer, part);
    }
  }

  // ---- IPv4 addresses inside IPv6 ones --------------------------------------

  predicate StartsWith(s: string, prefix: string) {
    |prefix| <= |s| && s[..|prefix|] == prefix
  }

  /** Four groups of one to three digits between dots, whatever they amount to. */
  predicate DottedQuad(s: string) {
    |Split(s)| == 4 && forall i :: 0 <= i < 4 ==> Digits(Split(s)[i])
  }

  const MAPPED := "::ffff:"
  const COMPATIBLE := "::"

  /** What the expression captures: tried at each position in turn, the longer alternative first, to the end of the text. */
  function Embedded(s: string): Option<string> {
    if StartsWith(s, MAPPED) && DottedQuad(s[|MAPPED|..]) then Some(s[|MAPPED|..])
    else if StartsWith(s, COMPATIBLE) && DottedQuad(s[|COMPATIBLE|..]) then Some(s[|COMPATIBLE|..])
    else if s == "" then None
    else Embedded(s[1..])
  }

  /** The text ends in an IPv4 address in dotted form, after `::` or `::ffff:`. */
  predicate EndsInDotted(s: string, v4: string) {
    DottedQuad(v4) && (EndsWith(s, MAPPED + v4) || EndsWith(s, COMPATIBLE + v4))
  }

  lemma {:induction false} SplitKeepsCharacters(s: string, c: char)
    requires c in s && c != '.'
    ensures exists i :: 0 <= i < |Split(s)| && c in Split(s)[i]
  {
    var rest := Split(s[1..]);
    if s[0] == c {
      assert c in Split(s)[0];
    } else {
      assert c in s[1..];
      SplitKeepsCharacters(s[1..], c);
      var i :| 0 <= i < |rest| && c in rest[i];
      if s[0] == '.' {
        assert Split(s)[i + 1] == rest[i];
      } else {
        assert Split(s)[i] == if i == 0 then [s[0]] + rest[0] else rest[i];
      }
    }
  }

  lemma QuadHasNoColon(s: string)
    requires DottedQuad(s)
    ensures ':' !in s && '.' in s
  {
    if ':' in s {
      SplitKeepsCharacters(s, ':');
    }
    if '.' !in s {
      SplitUndotted(s);
    }
  }

  lemma {:induction false} SplitUndotted(s: string)
    requires '.' !in s
    ensures Split(s) == [s]
  {
    if s != "" {
      assert s[0] in s && forall c :: c in s[1..] ==> c in s;
      SplitUndotted(s[1..]);
      assert s == [s[0]] + s[1..];
    }
  }

  function AfterLastColon(s: string): string {
    if ':' !in s then s else AfterLastColon(s[1..])
  }

  lemma {:induction false} AfterColon(head: string, tail: string)
    requires head != "" && head[|head| - 1] == ':'
    ensures AfterLastColon(head + tail) == AfterLastColon(tail)
  {
    var s := head + tail;
    assert s[|head| - 1] == ':';
    if |head| == 1 {
      assert s[1..] == tail;
    } else {
      assert s[1..] == head[1..] + tail;
      AfterColon(head[1..], tail);
    }
  }

  lemma EndingIsAfterLastColon(s: string, v4: string)
    requires EndsInDotted(s, v4)
    ensures AfterLastColon(s) == v4
  {
    QuadHasNoColon(v4);
    var mark := if EndsWith(s, MAPPED + v4) then MAPPED else COMPATIBLE;
    var cut := |s| - |mark + v4|;
    assert s == s[..cut] + s[cut..] == (s[..cut] + mark) + v4;
    AfterColon(s[..cut] + mark, v4);
  }

  lemma EndsWithLater(s: string, ending: string)
    requires s != "" && EndsWith(s[1..], ending)
    ensures EndsWith(s, ending)
  {
    assert s[|s| - |ending|..] == s[1..][|s| - 1 - |ending|..];
  }

  lemma EndsWithEarlier(s: string, ending: string)
    requires s != ending && EndsWith(s, ending)
    ensures s != "" && EndsWith(s[1..], ending)
  {
    assert s[0..] == s;
    assert s[|s| - |ending|..] == s[1..][|s| - 1 - |ending|..];
  }

  lemma {:induction false} CapturedIsEnding(s: string)
    ensures Embedded(s).Some? ==> EndsInDotted(s, Embedded(s).value)
  {
    if StartsWith(s, MAPPED) && DottedQuad(s[|MAPPED|..]) {
      assert s == MAPPED + s[|MAPPED|..] && s[0..] == s;
    } else if StartsWith(s, COMPATIBLE) && DottedQuad(s[|COMPATIBLE|..]) {
      assert s == COMPATIBLE + s[|COMPATIBLE|..] && s[0..] == s;
    } else if s != "" {
      CapturedIsEnding(s[1..]);
      if Embedded(s[1..]).Some? {
        var v4 := Embedded(s[1..]).value;
        EndsWithLater(s, if EndsWith(s[1..], MAPPED + v4) then MAPPED + v4 else COMPATIBLE + v4);
      }
    }
  }

  lemma {:induction false} EndingIsCaptured(s: string, v4: string)
    requires EndsInDotted(s, v4)
    ensures Embedded(s).Some?
  {
    if s == MAPPED + v4 {
      assert s[..|MAPPED|] == MAPPED && s[|MAPPED|..] == v4;
    } else if s == COMPATIBLE + v4 {
      assert s[..|COMPATIBLE|] == COMPATIBLE && s[|COMPATIBLE|..] == v4;
    } else {
      EndsWithEarlier(s, if EndsWith(s, MAPPED + v4) then MAPPED + v4 else COMPATIBLE + v4);
      EndingIsCaptured(s[1..], v4);
    }
  }

  /** The expression captures an address exactly when the text ends in it, dotted, after `::` or `::ffff:`. */
  lemma EmbeddedIff(s: string, v4: string)
    ensures Embedded(s) == Some(v4) <==> EndsInDotted(s, v4)
  {
    CapturedIsEnding(s);
    if EndsInDotted(s, v4) {
      EndingIsCaptured(s, v4);
      EndingIsAfterLastColon(s, v4);
      EndingIsAfterLastColon(s, Embedded(s).value);
    }
  }

  // ---- Whole addresses ------------------------------------------------------

  /** How an address literal is told apart. */
  datatype Literals = Literals(isV4: string -> bool, isV6: string -> bool)

  predicate IsLiteral(l: Literals, host: string) {
    l.isV4(host) || l.isV6(host)
  }

  const RESERVED_V6 := ["fe80", "fe9", "fea", "feb", "fc", "fd", "ff", "2001:db8", "64:ff9b"]

  predicate BlockedV4(ip: string) {
    Parsed(ip).None? || InTable(Parsed(ip).value)
  }

  function WithoutZone(ip: string): string {
    if ip == "" || ip[0] == '%' then "" else [ip[0]] + WithoutZone(ip[1..])
  }

  function AddressText(ip: string): string {
    WithoutZone(Lower(ip))
  }

  predicate HasReservedPrefix(address: string) {
    exists i :: 0 <= i < |RESERVED_V6| && StartsWith(address, RESERVED_V6[i])
  }

  /** An embedded IPv4 address is judged by the IPv4 rules before any IPv6 prefix is looked at. */
  predicate BlockedV6(ip: string) {
    var address := AddressText(ip);
    || address == "::" || address == "::1"
    || match Embedded(address)
       case Some(v4) => BlockedV4(v4)
       case None => HasReservedPrefix(address)
  }

  predicate BlockedAddress(l: Literals, ip: string) {
    if l.isV4(ip) then BlockedV4(ip) else if l.isV6(ip) then BlockedV6(ip) else true
  }

  method StartsWithAny(s: string, prefixes: seq<string>) returns (found: bool)
    ensures found <==> exists i :: 0 <= i < |prefixes| && StartsWith(s, prefixes[i])
  {
    for i := 0 to |prefixes|
      invariant forall j :: 0 <= j < i ==> !StartsWith(s, prefixes[j])
    {
      if StartsWith(s, prefixes[i]) {
        return true;
      }
    }
    found := false;
  }

  method IsBlockedIpv6(ip: string) returns (blocked: bool)
    ensures blocked == BlockedV6(ip)
  {
    var address := AddressText(ip);
    if address == "::" || address == "::1" {
      return true;
    }
    var embedded := Embedded(address);
    if embedded.Some? {
      blocked := IsBlockedIpv4(embedded.value);
    } else {
      blocked := StartsWithAny(address, RESERVED_V6);
    }
  }

  method IsBlockedAddress(l: Literals, ip: string) returns (blocked: bool)
    ensures blocked == BlockedAddress(l, ip)
    ensures l.isV4(ip) ==> blocked == BlockedV4(ip)
    ensures !l.isV4(ip) && l.isV6(ip) ==> blocked == BlockedV6(ip)
    ensures !l.isV4(ip) && !l.isV6(ip) ==> blocked
  {
    if l.isV4(ip) {
      blocked := IsBlockedIpv4(ip);
    } else if l.isV6(ip) {
      blocked := IsBlockedIpv6(ip);
    } else {
      blocked := true;
    }
  }

  /** A text that ends in a dotted IPv4 address directly after `::` or `::ffff:` is judged as that address would be. */
  lemma DottedFaresAlike(ip: string, v4: string)
    requires EndsInDotted(AddressText(ip), v4)
    ensures BlockedV6(ip) <==> BlockedV4(v4)
  {
    var address := AddressText(ip);
    EmbeddedIff(address, v4);
    EndingIsAfterLastColon(address, v4);
    QuadHasNoColon(v4);
    assert address != "::" by { assert AfterLastColon(":") == AfterLastColon(""); }
    assert address != "::1" by { OneIsNoQuad(); }
  }

  lemma OneIsNoQuad()
    ensures AfterLastColon("::1") == "1" && '.' !in "1"
  {
    AfterColon("::", "1");
    assert "::" + "1" == "::1";
  }

  /** Every other IPv6 text is judged by how it begins, and by that alone. */
  lemma OthersAreJudgedByPrefix(ip: string)
    requires forall v4 :: !EndsInDotted(AddressText(ip), v4)
    ensures BlockedV6(ip) <==> AddressText(ip) in {"::", "::1"} || HasReservedPrefix(AddressText(ip))
  {
    CapturedIsEnding(AddressText(ip));
  }

  // ---- The shape of a URL ---------------------------------------------------

  /** What the URL parser makes of the text; the port is absent where it is the scheme's own. */
  datatype Url = Url(protocol: string, username: string, password: string, port: Option<nat>, hostname: string)

  datatype Reason =
    | UrlTooLong | MalformedUrl | UnsupportedScheme | CredentialsInUrl | BlockedPort | BlockedName
    | PrivateAddress | DnsFailed

  const MAX_URL_LENGTH: nat := 2048

  const BLOCKED_PORTS := {22, 23, 25, 110, 143, 445, 465, 587, 993, 995, 1433, 1521, 3306, 5432, 6379, 9200, 11211,
                          27017, 2375, 2376, 5984, 8020, 9000, 9092}

  const BLOCKED_HOSTNAMES := {"localhost", "localhost.localdomain", "metadata.google.internal", "metadata.goog",
                              "instance-data", "instance-data.ec2.internal"}

  const BLOCKED_SUFFIXES := [".localhost", ".local", ".internal", ".localdomain", ".home.arpa", ".lan", ".intranet",
                             ".corp", ".private"]

  /** The host without the brackets an IPv6 literal stands in. */
  function Unwrapped(hostname: string): string {
    var s := if hostname != "" && hostname[0] == '[' then hostname[1..] else hostname;
    if s != "" && s[|s| - 1] == ']' then s[..|s| - 1] else s
  }

  function WithoutTrailingDot(s: string): string {
    if s != "" && s[|s| - 1] == '.' then s[..|s| - 1] else s
  }

  predicate BlockedHostname(l: Literals, hostname: string) {
    var host := WithoutTrailingDot(Lower(hostname));
    || host in BLOCKED_HOSTNAMES
    || (exists i :: 0 <= i < |BLOCKED_SUFFIXES| && EndsWith(host, BLOCKED_SUFFIXES[i]))
    || ('.' !in host && !IsLiteral(l, host))
  }

  method EndsWithAny(s: string, endings: seq<string>) returns (found: bool)
    ensures found <==> exists i :: 0 <= i < |endings| && EndsWith(s, endings[i])
  {
    for i := 0 to |endings|
      invariant forall j :: 0 <= j < i ==> !EndsWith(s, endings[j])
    {
      if EndsWith(s, endings[i]) {
        return true;
      }
    }
    found := false;
  }

  method IsBlockedHostname(l: Literals, hostname: string) returns (blocked: bool)
    ensures blocked == BlockedHostname(l, hostname)
  {
    var host := WithoutTrailingDot(Lower(hostname));
    if host in BLOCKED_HOSTNAMES {
      return true;
    }
    var suffixed := EndsWithAny(host, BLOCKED_SUFFIXES);
    if suffixed {
      return true;
    }
    blocked := '.' !in host && !IsLiteral(l, host);
  }

  predicate WebScheme(url: Url) {
    url.protocol == "http:" || url.protocol == "https:"
  }

  /** Everything a URL must be before anything is resolved; a literal is judged here and now. */
  predicate Shapely(l: Literals, length: nat, url: Option<Url>) {
    && length <= MAX_URL_LENGTH && url.Some? && WebScheme(url.value)
    && url.value.username == "" && url.value.password == ""
    && (url.value.port.Some? ==> url.value.port.value !in BLOCKED_PORTS)
    && !BlockedHostname(l, Unwrapped(url.value.hostname))
    && (IsLiteral(l, Unwrapped(url.value.hostname)) ==> !BlockedAddress(l, Unwrapped(url.value.hostname)))
  }

  /** What is wrong with a URL, each fault by itself. */
  predicate HasFault(l: Literals, length: nat, url: Option<Url>, fault: Reason) {
    match fault
    case UrlTooLong => length > 2048
    case MalformedUrl => url.None?
    case UnsupportedScheme => url.Some? && url.value.protocol !in {"http:", "https:"}
    case CredentialsInUrl => url.Some? && !(url.value.username == "" && url.value.password == "")
    case BlockedPort => url.Some? && url.value.port.Some? && url.value.port.value in BLOCKED_PORTS
    case BlockedName => url.Some? && BlockedHostname(l, Unwrapped(url.value.hostname))
    case PrivateAddress =>
      && url.Some? && (l.isV4(Unwrapped(url.value.hostname)) || l.isV6(Unwrapped(url.value.hostname)))
      && BlockedAddress(l, Unwrapped(url.value.hostname))
    case DnsFailed => false
  }

  function FaultOrder(fault: Reason): nat {
    match fault
    case UrlTooLong => 0 case MalformedUrl => 1 case UnsupportedScheme => 2 case CredentialsInUrl => 3
    case BlockedPort => 4 case BlockedName => 5 case PrivateAddress => 6 case DnsFailed => 7
  }

  /** The first thing that is wrong, in the order things are looked at. */
  ghost predicate FirstFault(l: Literals, length: nat, url: Option<Url>, fault: Reason) {
    HasFault(l, length, url, fault) && forall other :: HasFault(l, length, url, other) ==> FaultOrder(fault) <= FaultOrder(other)
  }

  lemma ShapelyMeansFaultless(l: Literals, length: nat, url: Option<Url>)
    ensures Shapely(l, length, url) <==> forall fault :: !HasFault(l, length, url, fault)
  {
    if forall fault :: !HasFault(l, length, url, fault) {
      assert !HasFault(l, length, url, UrlTooLong) && !HasFault(l, length, url, MalformedUrl);
      assert !HasFault(l, length, url, UnsupportedScheme) && !HasFault(l, length, url, CredentialsInUrl);
      assert !HasFault(l, length, url, BlockedPort) && !HasFault(l, length, url, BlockedName) && !HasFault(l, length, url, PrivateAddress);
    }
  }

  method CheckUrlShape(l: Literals, length: nat, url: Option<Url>) returns (denied: Option<Reason>)
    ensures denied.None? <==> Shapely(l, length, url)
    ensures denied.Some? ==> FirstFault(l, length, url, denied.value)
  {
    ShapelyMeansFaultless(l, length, url);
    if length > MAX_URL_LENGTH {
      return Some(UrlTooLong);
    }
    if url.None? {
      return Some(MalformedUrl);
    }
    if !WebScheme(url.value) {
      return Some(UnsupportedScheme);
    }
    if url.value.username != "" || url.value.password != "" {
      return Some(CredentialsInUrl);
    }
    if url.value.port.Some? && url.value.port.value in BLOCKED_PORTS {
      return Some(BlockedPort);
    }
    var hostname := Unwrapped(url.value.hostname);
    var named := IsBlockedHostname(l, hostname);
    if named {
      return Some(BlockedName);
    }
    if IsLiteral(l, hostname) {
      var blocked := IsBlockedAddress(l, hostname);
      if blocked {
        return Some(PrivateAddress);
      }
    }
    denied := None;
  }

  // ---- The whole decision ---------------------------------------------------

  datatype Verdict = Navigable(addresses: seq<string>) | Denied(reason: Reason)

  /** A name that is no literal must resolve, and all of its addresses must be acceptable. */
  predicate ResolvesWell(l: Literals, hostname: string, resolved: Option<seq<string>>) {
    || IsLiteral(l, hostname)
    || (resolved.Some? && resolved.value != [] && forall a :: a in resolved.value ==> !BlockedAddress(l, a))
  }

  method FirstBlocked(l: Literals, addresses: seq<string>) returns (first: Option<string>)
    ensures first.Some? ==> first.value in addresses && BlockedAddress(l, first.value)
    ensures first.None? ==> forall a :: a in addresses ==> !BlockedAddress(l, a)
  {
    for i := 0 to |addresses|
      invariant forall j :: 0 <= j < i ==> !BlockedAddress(l, addresses[j])
    {
      var blocked := IsBlockedAddress(l, addresses[i]);
      if blocked {
        return Some(addresses[i]);
      }
    }
    first := None;
  }

  /**
   * `assertNavigable`: navigable exactly when the URL has the right shape and resolves well, and then
   * every address handed on is an acceptable one, literal or resolved. The flag for a local fixture
   * server relaxes where a crawl may point, never the scheme.
   */
  method AssertNavigable(l: Literals, allowPrivateTargets: bool, length: nat, url: Option<Url>, resolved: Option<seq<string>>)
    returns (v: Verdict)
    ensures !allowPrivateTargets ==>
              (v.Navigable? <==> Shapely(l, length, url) && ResolvesWell(l, Unwrapped(url.value.hostname), resolved))
    ensures !allowPrivateTargets && v.Navigable? ==> v.addresses != [] && forall a :: a in v.addresses ==> !BlockedAddress(l, a)
    ensures v.Navigable? ==> url.Some? && WebScheme(url.value)
    ensures v.Navigable? ==> v.addresses == [Unwrapped(url.value.hostname)] || (resolved.Some? && v.addresses == resolved.value)
    ensures allowPrivateTargets && url.Some? && WebScheme(url.value) ==> v == Navigable([Unwrapped(url.value.hostname)])
    ensures v.Navigable? && !allowPrivateTargets ==>
              v.addresses == if IsLiteral(l, Unwrapped(url.value.hostname)) then [Unwrapped(url.value.hostname)] else resolved.value
    ensures v.Denied? && !Shapely(l, length, url) ==> FirstFault(l, length, url, v.reason)
    ensures v.Denied? && Shapely(l, length, url) ==> v.reason == if resolved.None? || resolved.value == [] then DnsFailed else PrivateAddress
    ensures v == Denied(PrivateAddress) ==> exists a :: BlockedAddress(l, a) && Named(url, resolved, a)
    ensures v == Denied(DnsFailed) ==> resolved.None? || resolved.value == []
  {
    ShapelyMeansFaultless(l, length, url);
    if allowPrivateTargets && url.Some? && WebScheme(url.value) {
      return Navigable([Unwrapped(url.value.hostname)]);
    }
    var shape := CheckUrlShape(l, length, url);
    if shape.Some? {
      assert shape == Some(PrivateAddress) ==> Named(url, resolved, Unwrapped(url.value.hostname));
      return Denied(shape.value);
    }
    var hostname := Unwrapped(url.value.hostname);
    if IsLiteral(l, hostname) {
      return Navigable([hostname]);
    }
    if resolved.None? || resolved.value == [] {
      return Denied(DnsFailed);
    }
    var blocked := FirstBlocked(l, resolved.value);
    if blocked.Some? {
      assert Named(url, resolved, blocked.value);
      return Denied(PrivateAddress);
    }
    v := Navigable(resolved.value);
  }

  /** The address is the URL's own, or one its name resolves to. */
  predicate Named(url: Option<Url>, resolved: Option<seq<string>>, a: string) {
    (url.Some? && a == Unwrapped(url.value.hostname)) || (resolved.Some? && a in resolved.value)
  }
}
