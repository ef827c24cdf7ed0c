/**
 * Text as the source handles it. Strings are ordered by character codes, as the default comparison
 * of ECMAScript orders them; joined on a separator, which can be undone where no item contains it;
 * and trimmed of white space at both ends. Numbers print in decimal.
 */
module Text {

  datatype Option<+T> = None | Some(value: T)

  /** Lexicographic order on text, as `<` orders strings. */
  predicate Leq(a: string, b: string) {
    a == "" || (b != "" && (a[0] < b[0] || (a[0] == b[0] && Leq(a[1..], b[1..]))))
  }

  predicate Less(a: string, b: string) {
    a != b && Leq(a, b)
  }

  lemma {:induction false} LeqTotal(a: string, b: string)
    ensures Leq(a, b) || Leq(b, a)
    ensures Leq(a, b) && Leq(b, a) ==> a == b
  {
    if a != "" && b != "" && a[0] == b[0] {
      LeqTotal(a[1..], b[1..]);
      assert a == [a[0]] + a[1..] && b == [b[0]] + b[1..];
    }
  }

  lemma {:induction false} LeqTransitive(a: string, b: string, c: string)
    requires Leq(a, b) && Leq(b, c)
    ensures Leq(a, c)
  {
    if a != "" && b != "" && c != "" && a[0] == b[0] && b[0] == c[0] {
      LeqTransitive(a[1..], b[1..], c[1..]);
    }
  }

  lemma LeqOrders()
    ensures forall a, b :: Leq(a, b) || Leq(b, a)
    ensures forall a, b :: Leq(a, b) && Leq(b, a) ==> a == b
    ensures forall a, b, c :: Leq(a, b) && Leq(b, c) ==> Leq(a, c)
  {
    forall a: string, b: string ensures (Leq(a, b) || Leq(b, a)) && (Leq(a, b) && Leq(b, a) ==> a == b) {
      LeqTotal(a, b);
    }
    forall a: string, b: string, c: string | Leq(a, b) && Leq(b, c) ensures Leq(a, c) {
      LeqTransitive(a, b, c);
    }
  }

  // ---- Joining on a separator ----------------------------------------------

  function Join(parts: seq<string>, sep: char): string {
    if parts == [] then ""
    else if |parts| == 1 then parts[0]
    else parts[0] + [sep] + Join(parts[1..], sep)
  }

  function Count(s: string, c: char): nat {
    if s == "" then 0 else (if s[0] == c then 1 else 0) + Count(s[1..], c)
  }

  function CountAll(parts: seq<string>, c: char): nat {
    if parts == [] then 0 else Count(parts[0], c) + CountAll(parts[1..], c)
  }

  ghost predicate Free(parts: seq<string>, c: char) {
    forall i :: 0 <= i < |parts| ==> c !in parts[i]
  }

  lemma {:induction false} CountAppend(a: string, b: string, c: char)
    ensures Count(a + b, c) == Count(a, c) + Count(b, c)
  {
    if a == "" {
      assert a + b == b;
    } else {
      CountAppend(a[1..], b, c);
      assert (a + b)[1..] == a[1..] + b;
    }
  }

  lemma {:induction false} CountZero(s: string, c: char)
    ensures Count(s, c) == 0 <==> c !in s
  {
    if s != "" {
      CountZero(s[1..], c);
      assert s == [s[0]] + s[1..];
    }
  }

  lemma {:induction false} CountAllZero(parts: seq<string>, c: char)
    ensures CountAll(parts, c) == 0 <==> Free(parts, c)
  {
    if parts != [] {
      CountAllZero(parts[1..], c);
      CountZero(parts[0], c);
      assert forall i :: 1 <= i < |parts| ==> parts[i] == parts[1..][i - 1];
    }
  }

  lemma {:induction false} JoinCount(parts: seq<string>, sep: char)
    requires parts != []
    ensures Count(Join(parts, sep), sep) == |parts| - 1 + CountAll(parts, sep)
  {
    if |parts| == 1 {
      assert parts[1..] == [];
    } else {
      JoinCount(parts[1..], sep);
      CountAppend(parts[0] + [sep], Join(parts[1..], sep), sep);
      CountAppend(parts[0], [sep], sep);
    }
  }

  /** A joined list of as many separator-free parts can be taken apart in one way only. */
  lemma {:induction false} JoinInjective(a: seq<string>, b: seq<string>, sep: char)
    requires |a| == |b| && Free(a, sep)
    requires Join(a, sep) == Join(b, sep)
    ensures a == b
  {
    if |a| > 0 {
      JoinCount(a, sep);
      JoinCount(b, sep);
      CountAllZero(a, sep);
      CountAllZero(b, sep);
    }
    if |a| == 1 {
    } else if |a| > 1 {
      var whole := Join(a, sep);
      assert whole[|a[0]|] == sep && whole[|b[0]|] == sep;
      assert whole[..|a[0]|] == a[0] && whole[..|b[0]|] == b[0];
      assert forall i :: 0 <= i < |a[0]| ==> whole[i] != sep by { assert sep !in a[0]; }
      assert forall i :: 0 <= i < |b[0]| ==> whole[i] != sep by { assert sep !in b[0]; }
      assert |a[0]| == |b[0]|;
      assert whole[|a[0]| + 1..] == Join(a[1..], sep) && whole[|b[0]| + 1..] == Join(b[1..], sep);
      JoinInjective(a[1..], b[1..], sep);
      assert a == [a[0]] + a[1..] && b == [b[0]] + b[1..];
    }
  }

  ghost predicate Solid(parts: seq<string>, sep: char) {
    forall i :: 0 <= i < |parts| ==> parts[i] != "" && sep !in parts[i]
  }

  /** Lists of non-empty, separator-free items: no length needs to be known in advance. */
  lemma JoinSolidInjective(a: seq<string>, b: seq<string>, sep: char)
    requires Solid(a, sep) && Solid(b, sep)
    requires Join(a, sep) == Join(b, sep)
    ensures a == b
  {
    if a != [] && b != [] {
      JoinCount(a, sep);
      JoinCount(b, sep);
      CountAllZero(a, sep);
      CountAllZero(b, sep);
      JoinInjective(a, b, sep);
    }
  }

  lemma {:induction false} JoinFree(parts: seq<string>, sep: char, c: char)
    requires c != sep && Free(parts, c)
    ensures c !in Join(parts, sep)
  {
    if |parts| > 1 {
      JoinFree(parts[1..], sep, c);
    }
  }

  // ---- Lower case -----------------------------------------------------------

  function LowerChar(c: char): char {
    if 'A' <= c <= 'Z' then (c as int + 32) as char else c
  }

  function Lower(s: string): (r: string)
    ensures |r| == |s|
  {
    if s == "" then "" else [LowerChar(s[0])] + Lower(s[1..])
  }

  // ---- Trimming -------------------------------------------------------------

  /** The white space and line terminators ECMAScript's `trim` removes. */
  predicate IsSpace(c: char) {
    || '\t' <= c <= '\r' || c == ' ' || c == '\U{A0}' || c == '\U{1680}'
    || '\U{2000}' <= c <= '\U{200A}' || c == '\U{2028}' || c == '\U{2029}'
    || c == '\U{202F}' || c == '\U{205F}' || c == '\U{3000}' || c == '\U{FEFF}'
  }

  function TrimLeft(s: string): (r: string)
    ensures forall c :: c in r ==> c in s
    ensures r != "" ==> !IsSpace(r[0])
  {
    if s != "" && IsSpace(s[0]) then TrimLeft(s[1..]) else s
  }

  function TrimRight(s: string): (r: string)
    ensures forall c :: c in r ==> c in s
    ensures r != "" ==> !IsSpace(r[|r| - 1]) && s != "" && r[0] == s[0]
  {
    if s != "" && IsSpace(s[|s| - 1]) then TrimRight(s[..|s| - 1]) else s
  }

  function Trim(s: string): (r: string)
    ensures forall c :: c in r ==> c in s
  {
    TrimRight(TrimLeft(s))
  }

  predicate Blank(s: string) {
    forall c :: c in s ==> IsSpace(c)
  }

  lemma {:induction false} TrimLeftBlank(s: string)
    ensures (TrimLeft(s) == "" <==> Blank(s)) && (Blank(TrimLeft(s)) <==> Blank(s))
  {
    if s != "" && IsSpace(s[0]) {
      TrimLeftBlank(s[1..]);
      assert s == [s[0]] + s[1..];
    }
  }

  lemma {:induction false} TrimRightBlank(s: string)
    ensures TrimRight(s) == "" <==> Blank(s)
  {
    if s != "" && IsSpace(s[|s| - 1]) {
      TrimRightBlank(s[..|s| - 1]);
      assert s == s[..|s| - 1] + [s[|s| - 1]];
    }
  }

  lemma TrimBlank(s: string)
    ensures Trim(s) == "" <==> Blank(s)
  {
    TrimLeftBlank(s);
    TrimRightBlank(TrimLeft(s));
  }

  lemma {:induction false} TrimRightFixed(s: string)
    requires s != "" && !IsSpace(s[|s| - 1])
    ensures TrimRight(s) == s
  {
  }

  lemma TrimWhole(line: string)
    requires line != "" && !IsSpace(line[0]) && !IsSpace(line[|line| - 1])
    ensures Trim(line) == line
  {
    TrimRightFixed(line);
  }

  lemma {:induction false} LowerByCharacter(s: string, t: string)
    requires |s| == |t| && forall i :: 0 <= i < |s| ==> LowerChar(s[i]) == t[i]
    ensures Lower(s) == t
  {
    if s != "" {
      LowerByCharacter(s[1..], t[1..]);
      assert t == [t[0]] + t[1..];
    }
  }

  // ---- Decimal digits -------------------------------------------------------

  const DIGITS := "0123456789"

  function Decimal(n: nat): (s: string)
    ensures s != "" && forall i :: 0 <= i < |s| ==> s[i] in DIGITS
  {
    if n < 10 then [DIGITS[n]] else Decimal(n / 10) + [DIGITS[n % 10]]
  }

  lemma {:induction false} DecimalInjective(m: nat, n: nat)
    requires Decimal(m) == Decimal(n)
    ensures m == n
  {
    var s := Decimal(m);
    if m < 10 && n < 10 {
      assert s[0] == DIGITS[m] == DIGITS[n];
    } else if m >= 10 && n >= 10 {
      assert s[|s| - 1] == DIGITS[m % 10] == DIGITS[n % 10];
      assert s[..|s| - 1] == Decimal(m / 10) == Decimal(n / 10);
      DecimalInjective(m / 10, n / 10);
    }
  }

  // ---- Up to a character -----------------------------------------------------

  /** What stands before the first `c`; everything where there is none. */
  function Before(s: string, c: char): (r: string)
    ensures |r| <= |s| && r == s[..|r|] && c !in r
    ensures |r| < |s| ==> s[|r|] == c
  {
    if s == "" || s[0] == c then "" else [s[0]] + Before(s[1..], c)
  }

  lemma {:induction false} BeforeAbsent(s: string, c: char)
    requires c !in s
    ensures Before(s, c) == s
  {
    if s != "" {
      assert s[0] in s && forall x :: x in s[1..] ==> x in s;
      BeforeAbsent(s[1..], c);
      assert s == [s[0]] + s[1..];
    }
  }

  lemma {:induction false} BeforeFirst(a: string, c: char, b: string)
    requires c !in a
    ensures Before(a + [c] + b, c) == a
  {
    var s := a + [c] + b;
    if a == "" {
      assert s[0] == c;
    } else {
      assert s[0] == a[0] && s[1..] == a[1..] + [c] + b && a[0] in a;
      BeforeFirst(a[1..], c, b);
      assert a == [a[0]] + a[1..];
    }
  }

  /** The pieces between one `c` and the next. */
  function Pieces(s: string, c: char): (r: seq<string>)
    ensures r != []
    decreases |s|
  {
    var first := Before(s, c);
    if |first| == |s| then [s] else [first] + Pieces(s[|first| + 1..], c)
  }

  /** Joined parts come apart again where none contains the separator. */
  lemma {:induction false} PiecesOfJoin(parts: seq<string>, c: char)
    requires parts != [] && Free(parts, c)
    ensures Pieces(Join(parts, c), c) == parts
  {
    if |parts| == 1 {
      BeforeAbsent(parts[0], c);
    } else {
      var rest := Join(parts[1..], c);
      PiecesOfJoin(parts[1..], c);
      BeforeFirst(parts[0], c, rest);
      assert (parts[0] + [c] + rest)[|parts[0]| + 1..] == rest;
      assert parts == [parts[0]] + parts[1..];
    }
  }
}
