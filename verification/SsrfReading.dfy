/** What the texts the scanner is given are read as. */
module SsrfReading {
  // The order octets stand in, zones, brackets and trailing dots: what `Ssrf` takes a text for, said of the text.

  import opened Text
  import opened Hosts
  import opened Ssrf

  // ---- Dotted addresses -----------------------------------------------------

  /** The digits count up from zero in the order of their code points. */
  lemma DigitsCountUp(c: char)
    requires '0' <= c < '9'
    ensures DigitOf('0') == 0 && DigitOf((c as int + 1) as char) == DigitOf(c) + 1
  {
    if c <= '4' { SmallDigits(c); } else { LargeDigits(c); }
  }

  lemma SmallDigits(c: char)
    requires '0' <= c <= '4'
    ensures DigitOf((c as int + 1) as char) == DigitOf(c) + 1
  {
    assert c == '0' || c == '1' || c == '2' || c == '3' || c == '4';
  }

  lemma LargeDigits(c: char)
    requires '5' <= c < '9'
    ensures DigitOf((c as int + 1) as char) == DigitOf(c) + 1
  {
    assert c == '5' || c == '6' || c == '7' || c == '8';
  }

  lemma {:induction false} Grows(part: string, c: char)
    ensures NumberOf(part + [c]) == OneMoreDigit(NumberOf(part), c)
  {
    assert (part + [c])[..|part|] == part;
  }

  /** The first digit weighs most. */
  lemma NumbersRead()
    ensures NumberOf("7") == 7 && NumberOf("42") == 42 && NumberOf("255") == 255 && NumberOf("169") == 169
  {
    Grows("", '7');
    Grows("", '4');
    Grows("4", '2');
    Grows("", '2');
    Grows("2", '5');
    Grows("25", '5');
    Grows("", '1');
    Grows("1", '6');
    Grows("16", '9');
    assert "" + ['7'] == "7" && "" + ['4'] == "4" && "4" + ['2'] == "42" && "" + ['2'] == "2" && "2" + ['5'] == "25"
        && "25" + ['5'] == "255" && "" + ['1'] == "1" && "1" + ['6'] == "16" && "16" + ['9'] == "169";
  }

  predicate FourOctets(ip: string) {
    |Split(ip)| == 4 && forall i :: 0 <= i < 4 ==> Digits(Split(ip)[i]) && NumberOf(Split(ip)[i]) <= 255
  }

  /** An address is refused when it is not four octets, or when its first three, as written, are reserved. */
  lemma BlockedByItsOctets(ip: string)
    ensures BlockedV4(ip) <==>
              !FourOctets(ip) || Reserved(NumberOf(Split(ip)[0]), NumberOf(Split(ip)[1]), NumberOf(Split(ip)[2]))
  {
    var parts := Split(ip);
    if FourOctets(ip) {
      TableIsIntervals(NumberOf(parts[0]), NumberOf(parts[1]), NumberOf(parts[2]), NumberOf(parts[3]));
    }
  }

  // ---- Zones, brackets and dots ---------------------------------------------

  /** What follows the first `%` is no part of the address. */
  lemma {:induction false} ZoneIsDropped(address: string, zone: string)
    requires '%' !in address
    ensures WithoutZone(address) == address && WithoutZone(address + "%" + zone) == address
  {
    if address == "" {
      assert "" + "%" + zone == "%" + zone;
    } else {
      var all := address + "%" + zone;
      ZoneIsDropped(address[1..], zone);
      assert all[0] == address[0] && all[1..] == address[1..] + "%" + zone;
    }
  }

  predicate Opens(s: string) { s != "" && s[0] == '[' }
  predicate Ends(s: string, c: char) { s != "" && s[|s| - 1] == c }

  /** One bracket goes at either end, where there is one. */
  lemma UnwrappedMeans(hostname: string)
    ensures var h := Unwrapped(hostname);
            if Opens(hostname)
            then hostname == "[" + h + "]" || (hostname == "[" + h && !Ends(h, ']'))
            else hostname == h + "]" || (hostname == h && !Ends(h, ']'))
  {
    var s := if Opens(hostname) then hostname[1..] else hostname;
    if Opens(hostname) { assert hostname == "[" + s; }
    if Ends(s, ']') { assert s == s[..|s| - 1] + "]"; }
  }

  /** One dot goes at the end, where there is one. */
  lemma TrailingDotMeans(s: string)
    ensures var h := WithoutTrailingDot(s); s == h + "." || (s == h && !Ends(h, '.'))
  {
    if Ends(s, '.') { assert s == s[..|s| - 1] + "."; }
  }

  // ---- Names ----------------------------------------------------------------

  predicate EndsInOneOf(host: string) {
    || EndsWith(host, ".localhost") || EndsWith(host, ".local") || EndsWith(host, ".internal")
    || EndsWith(host, ".localdomain") || EndsWith(host, ".home.arpa") || EndsWith(host, ".lan")
    || EndsWith(host, ".intranet") || EndsWith(host, ".corp") || EndsWith(host, ".private")
  }

  predicate IsOneOf(host: string) {
    host in {"localhost", "localhost.localdomain", "metadata.google.internal", "metadata.goog", "instance-data",
             "instance-data.ec2.internal"}
  }

  /** Which names are refused unresolved: those listed, those under a listed ending, and any single label that is no address. */
  lemma NameIsBlockedIff(l: Literals, hostname: string)
    ensures var host := WithoutTrailingDot(Lower(hostname));
            BlockedHostname(l, hostname) <==>
              IsOneOf(host) || EndsInOneOf(host) || (|Split(host)| == 1 && !l.isV4(host) && !l.isV6(host))
  {
    var host := WithoutTrailingDot(Lower(hostname));
    UnderAnEnding(host);
    OneLabelIff(host);
  }

  lemma UnderAnEnding(host: string)
    ensures (exists i :: 0 <= i < |BLOCKED_SUFFIXES| && EndsWith(host, BLOCKED_SUFFIXES[i])) <==> EndsInOneOf(host)
  {
    SuffixesUnrolled((s: string) => EndsWith(host, s));
  }

  lemma SuffixesUnrolled(meets: string -> bool)
    ensures (exists i :: 0 <= i < |BLOCKED_SUFFIXES| && meets(BLOCKED_SUFFIXES[i])) <==>
      || meets(".localhost") || meets(".local") || meets(".internal") || meets(".localdomain") || meets(".home.arpa")
      || meets(".lan") || meets(".intranet") || meets(".corp") || meets(".private")
  {
    var t := BLOCKED_SUFFIXES;
    assert |t| == 9;
    assert (exists i :: 0 <= i < |t| && meets(t[i])) <==>
      || meets(t[0]) || meets(t[1]) || meets(t[2]) || meets(t[3]) || meets(t[4]) || meets(t[5]) || meets(t[6])
      || meets(t[7]) || meets(t[8]);
  }

  lemma {:induction false} OneLabelIff(s: string)
    ensures |Split(s)| == 1 <==> '.' !in s
  {
    if s != "" {
      OneLabelIff(s[1..]);
      assert s == [s[0]] + s[1..];
    }
  }
}
