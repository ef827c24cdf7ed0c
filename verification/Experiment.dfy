/**
 * Experiment variants: what makes a set of them well formed, and which arm a browser is in.
 */
module Experiment {
  import opened Text
  import opened Sequences
  import opened InsertionMaps

  // ---- Variants -------------------------------------------------------------

  datatype Allocation = Whole(percent: int) | NotWhole
  datatype Copy = Words(text: string) | NotText | Null

  datatype Variant = Variant(key: string, name: string, allocation: Allocation, isControl: bool, text: Option<Dict<string, Copy>>)

  datatype Problem =
    | TooFew | BadKey(at: nat) | DuplicateKey(at: nat) | NoName(at: nat) | BadAllocation(at: nat)
    | UnknownField(at: nat, field: string) | NotCopy(at: nat, field: string) | TooLong(at: nat, field: string)
    | Blanked(at: nat, field: string) | WrongTotal(total: int) | WrongControls(controls: nat)

  const FIELDS := ["title", "body", "accept_all", "reject_all", "manage", "save"]
  const LEGIBLE := ["reject_all", "manage"]

  predicate KeyStart(c: char) { 'a' <= c <= 'z' || '0' <= c <= '9' }

  predicate KeyRest(c: char) { KeyStart(c) || c == '_' || c == '-' }

  predicate KeyOk(key: string) {
    1 <= |key| <= 32 && KeyStart(key[0]) && forall i :: 1 <= i < |key| ==> KeyRest(key[i])
  }

  predicate CopyOk(field: string, copy: Copy) {
    match copy
    case Null => true
    case NotText => false
    case Words(text) => |text| <= 400 && (field in LEGIBLE ==> Trim(text) != "")
  }

  ghost predicate TextOk(text: Option<Dict<string, Copy>>) {
    text.Some? ==> forall f :: f in text.value.table ==> f in FIELDS && CopyOk(f, text.value.table[f])
  }

  function Percent(v: Variant): int {
    if v.allocation.Whole? && 0 <= v.allocation.percent <= 100 then v.allocation.percent else 0
  }

  predicate AllocationOk(v: Variant) {
    v.allocation.Whole? && 0 <= v.allocation.percent <= 100
  }

  function Total(variants: seq<Variant>): int {
    if variants == [] then 0 else Total(variants[..|variants| - 1]) + Percent(variants[|variants| - 1])
  }

  function Controls(variants: seq<Variant>): nat {
    if variants == [] then 0
    else Controls(variants[..|variants| - 1]) + if variants[|variants| - 1].isControl then 1 else 0
  }

  ghost predicate VariantOk(v: Variant) {
    KeyOk(v.key) && Trim(v.name) != "" && AllocationOk(v) && TextOk(v.text)
  }

  predicate DistinctKeys(variants: seq<Variant>) {
    forall i, j :: 0 <= i < j < |variants| ==> variants[i].key != variants[j].key
  }

  /** Two arms or more, readable distinct keys, whole percentages that sum to 100, one control, and copy only. */
  ghost predicate WellFormed(variants: seq<Variant>) {
    && |variants| >= 2 && DistinctKeys(variants) && Total(variants) == 100 && Controls(variants) == 1
    && forall i :: 0 <= i < |variants| ==> VariantOk(variants[i])
  }

  // ---- What a fault is ------------------------------------------------------

  /** A lower-case letter or a digit, by its code. */
  predicate Alphanumeric(code: int) { 97 <= code <= 122 || 48 <= code <= 57 }

  /** One to thirty-two lower-case letters, digits, hyphens and underscores, the first of them a letter or digit. */
  predicate Readable(key: string) {
    && 1 <= |key| <= 32 && Alphanumeric(key[0] as int)
    && forall c :: c in key ==> Alphanumeric(c as int) || c == '-' || c == '_'
  }

  lemma KeyIsReadable(key: string)
    ensures KeyOk(key) <==> Readable(key)
  {
    forall c ensures KeyStart(c) <==> Alphanumeric(c as int) {
    }
    if KeyOk(key) {
      forall c | c in key ensures KeyRest(c) {
        var i :| 0 <= i < |key| && key[i] == c;
      }
    }
    if Readable(key) {
      forall i | 0 <= i < |key| ensures KeyRest(key[i]) {
        assert key[i] in key;
      }
    }
  }

  /** What is wrong with a field that is there. */
  predicate CopyFault(field: string, copy: Copy, at: nat, p: Problem) {
    || (copy.NotText? && p == NotCopy(at, field))
    || (copy.Words? && |copy.text| > 400 && p == TooLong(at, field))
    || (copy.Words? && field in {"reject_all", "manage"} && Blank(copy.text) && p == Blanked(at, field))
  }

  const CHANGEABLE := {"title", "body", "accept_all", "reject_all", "manage", "save"}

  /** What is wrong with a variant's copy. */
  ghost predicate TextFault(text: Option<Dict<string, Copy>>, at: nat, p: Problem) {
    && text.Some?
    && exists f :: f in text.value.table
                   && if f in CHANGEABLE then CopyFault(f, text.value.table[f], at, p) else p == UnknownField(at, f)
  }

  ghost predicate Repeats(variants: seq<Variant>, at: nat)
    requires at < |variants|
  {
    exists j :: 0 <= j < at && variants[j].key == variants[at].key
  }

  /** What is wrong with one variant among the others. */
  ghost predicate VariantFault(variants: seq<Variant>, at: nat, p: Problem)
    requires at < |variants|
  {
    var v := variants[at];
    || (p == BadKey(at) && !Readable(v.key))
    || (p == DuplicateKey(at) && Readable(v.key) && Repeats(variants, at))
    || (p == NoName(at) && Blank(v.name))
    || (p == BadAllocation(at) && (v.allocation.NotWhole? || v.allocation.percent < 0 || v.allocation.percent > 100))
    || TextFault(v.text, at, p)
  }

  /** What is wrong with a set of variants. */
  ghost predicate Fault(variants: seq<Variant>, p: Problem) {
    || (p == TooFew && |variants| < 2)
    || (exists at: nat :: at < |variants| && VariantFault(variants, at, p))
    || (p == WrongTotal(Added(variants)) && Added(variants) != 100)
    || (p == WrongControls(|ControlsOf(variants)|) && |ControlsOf(variants)| != 1)
  }

  /** The percentages that are such, added up. */
  function Added(variants: seq<Variant>): int {
    if variants == [] then 0
    else
      Added(variants[1..]) + match variants[0].allocation
                             case NotWhole => 0
                             case Whole(n) => if n < 0 || n > 100 then 0 else n
  }

  function ControlsOf(variants: seq<Variant>): set<nat> {
    set i: nat | i < |variants| && variants[i].isControl
  }

  lemma {:induction false} TotalIsAdded(variants: seq<Variant>)
    ensures Total(variants) == Added(variants)
  {
    if |variants| == 1 {
      assert variants[..0] == [] && variants[1..] == [];
    } else if |variants| > 1 {
      var n := |variants| - 1;
      TotalIsAdded(variants[..n]);
      TotalIsAdded(variants[1..]);
      TotalIsAdded(variants[1..n]);
      assert variants[..n][1..] == variants[1..n] && variants[1..][..n - 1] == variants[1..n];
    }
  }

  lemma {:induction false} ControlsAreCounted(variants: seq<Variant>)
    ensures Controls(variants) == |ControlsOf(variants)|
  {
    if variants != [] {
      var n := |variants| - 1;
      ControlsAreCounted(variants[..n]);
      assert ControlsOf(variants) == if variants[n].isControl then ControlsOf(variants[..n]) + {n} else ControlsOf(variants[..n]);
    }
  }

  // ---- Validation -----------------------------------------------------------

  /** One field of the copy, after the unknown ones. */
  method ValidateField(field: string, copy: Copy, at: nat) returns (found: seq<Problem>)
    ensures forall p :: p in found <==> CopyFault(field, copy, at, p)
  {
    found := [];
    if copy.Null? {
      return;
    }
    if copy.NotText? {
      return [NotCopy(at, field)];
    }
    LegibleAre(field);
    TrimBlank(copy.text);
    if |copy.text| > 400 {
      found := found + [TooLong(at, field)];
    }
    if field in LEGIBLE && |Trim(copy.text)| == 0 {
      found := found + [Blanked(at, field)];
    }
  }

  lemma LegibleAre(field: string)
    ensures field in LEGIBLE <==> field in {"reject_all", "manage"}
  {
    assert LEGIBLE[0] == "reject_all" && LEGIBLE[1] == "manage";
  }

  lemma FieldsAre(field: string)
    ensures field in FIELDS <==> field in CHANGEABLE
  {
    assert FIELDS[0] == "title" && FIELDS[1] == "body" && FIELDS[2] == "accept_all";
    assert FIELDS[3] == "reject_all" && FIELDS[4] == "manage" && FIELDS[5] == "save";
  }

  /** `validateText`: unknown fields first, then each field in turn; every fault is reported and nothing repaired. */
  method ValidateText(text: Option<Dict<string, Copy>>, at: nat) returns (problems: seq<Problem>)
    requires text.Some? ==> text.value.Valid()
    ensures forall p :: p in problems <==> TextFault(text, at, p)
    ensures problems == [] <==> TextOk(text)
  {
    TextFaultless(text, at);
    problems := [];
    if text.None? {
      return;
    }
    var t := text.value;
    for i := 0 to |t.keys|
      invariant forall p :: p in problems <==> exists j :: 0 <= j < i && t.keys[j] !in FIELDS && p == UnknownField(at, t.keys[j])
    {
      if t.keys[i] !in FIELDS {
        problems := problems + [UnknownField(at, t.keys[i])];
      }
    }
    ghost var unknown := problems;
    for i := 0 to |FIELDS|
      invariant forall p :: p in problems <==>
                  p in unknown || exists j :: 0 <= j < i && FIELDS[j] in t.table && CopyFault(FIELDS[j], t.table[FIELDS[j]], at, p)
    {
      var field := FIELDS[i];
      if field in t.table {
        var found := ValidateField(field, t.table[field], at);
        problems := problems + found;
      }
    }
    forall p ensures p in problems <==> TextFault(text, at, p) {
      FaultsOfText(t, at, p);
    }
    assert problems == [] <==> forall p :: p !in problems by {
      if problems != [] { assert problems[0] in problems; }
    }
  }

  /** The faults by position in the two lists are the faults by field. */
  lemma FaultsOfText(t: Dict<string, Copy>, at: nat, p: Problem)
    requires t.Valid()
    ensures TextFault(Some(t), at, p) <==>
            || (exists j :: 0 <= j < |t.keys| && t.keys[j] !in FIELDS && p == UnknownField(at, t.keys[j]))
            || (exists j :: 0 <= j < |FIELDS| && FIELDS[j] in t.table && CopyFault(FIELDS[j], t.table[FIELDS[j]], at, p))
  {
    if TextFault(Some(t), at, p) {
      var f :| f in t.table && if f in CHANGEABLE then CopyFault(f, t.table[f], at, p) else p == UnknownField(at, f);
      FieldsAre(f);
      if f in CHANGEABLE {
        var j := IndexOf(FIELDS, f);
      } else {
        var j := IndexOf(t.keys, f);
      }
    }
    if j :| 0 <= j < |t.keys| && t.keys[j] !in FIELDS && p == UnknownField(at, t.keys[j]) {
      FieldsAre(t.keys[j]);
      assert t.keys[j] in t.keys;
    }
    if j :| 0 <= j < |FIELDS| && FIELDS[j] in t.table && CopyFault(FIELDS[j], t.table[FIELDS[j]], at, p) {
      FieldsAre(FIELDS[j]);
    }
  }

  ghost predicate TextsValid(variants: seq<Variant>) {
    forall i :: 0 <= i < |variants| && variants[i].text.Some? ==> variants[i].text.value.Valid()
  }

  method ValidateOne(ghost variants: seq<Variant>, v: Variant, at: nat, seen: set<string>) returns (problems: seq<Problem>, counted: int)
    requires v.text.Some? ==> v.text.value.Valid()
    requires at < |variants| && v == variants[at] && (v.key in seen <==> Repeats(variants, at))
    ensures forall p :: p in problems <==> VariantFault(variants, at, p)
    ensures counted == Percent(v)
  {
    problems, counted := [], 0;
    KeyIsReadable(v.key);
    TrimBlank(v.name);
    if !KeyOk(v.key) {
      problems := problems + [BadKey(at)];
    } else if v.key in seen {
      problems := problems + [DuplicateKey(at)];
    }
    if v.name == "" || Trim(v.name) == "" {
      problems := problems + [NoName(at)];
    }
    if v.allocation.NotWhole? || v.allocation.percent < 0 || v.allocation.percent > 100 {
      problems := problems + [BadAllocation(at)];
    } else {
      counted := v.allocation.percent;
    }
    var copy := ValidateText(v.text, at);
    problems := problems + copy;
  }

  method ValidateEach(variants: seq<Variant>) returns (problems: seq<Problem>, total: int, controls: nat)
    requires TextsValid(variants)
    ensures forall p :: p in problems <==> exists at: nat :: at < |variants| && VariantFault(variants, at, p)
    ensures total == Total(variants) && controls == Controls(variants)
  {
    problems, total, controls := [], 0, 0;
    var seen: set<string> := {};
    for i := 0 to |variants|
      invariant forall k :: k in seen <==> exists j :: 0 <= j < i && variants[j].key == k
      invariant total == Total(variants[..i]) && controls == Controls(variants[..i])
      invariant forall p :: p in problems <==> exists at: nat :: at < i && VariantFault(variants, at, p)
    {
      assert variants[..i + 1][..i] == variants[..i];
      var found, counted := ValidateOne(variants, variants[i], i, seen);
      seen := seen + {variants[i].key};
      total := total + counted;
      problems := problems + found;
      if variants[i].isControl {
        controls := controls + 1;
      }
    }
    assert variants[..|variants|] == variants;
  }

  /** `validateVariants` reports every fault and nothing else: nothing exactly for a well-formed set. */
  method ValidateVariants(variants: seq<Variant>) returns (problems: seq<Problem>)
    requires TextsValid(variants)
    ensures forall p :: p in problems <==> Fault(variants, p)
    ensures problems == [] <==> WellFormed(variants)
  {
    problems := [];
    if |variants| < 2 {
      problems := problems + [TooFew];
    }
    var each, total, controls := ValidateEach(variants);
    problems := problems + each;
    if total != 100 {
      problems := problems + [WrongTotal(total)];
    }
    if controls != 1 {
      problems := problems + [WrongControls(controls)];
    }
    TotalIsAdded(variants);
    ControlsAreCounted(variants);
    FaultlessIffWellFormed(variants);
    assert problems == [] <==> forall p :: p !in problems by {
      if problems != [] { assert problems[0] in problems; }
    }
  }

  lemma TextFaultless(text: Option<Dict<string, Copy>>, at: nat)
    ensures TextOk(text) <==> forall p :: !TextFault(text, at, p)
  {
    if text.Some? {
      var t := text.value.table;
      forall f | f in t ensures (f in FIELDS && CopyOk(f, t[f])) <==> FieldFaultless(f, t[f], at) {
        FieldFaults(f, t[f], at);
      }
      if forall p :: !TextFault(text, at, p) {
        forall f | f in t ensures FieldFaultless(f, t[f], at) {
          assert forall p :: (if f in CHANGEABLE then CopyFault(f, t[f], at, p) else p == UnknownField(at, f)) ==> TextFault(text, at, p);
          assert f !in CHANGEABLE ==> TextFault(text, at, UnknownField(at, f));
        }
      }
    }
  }

  ghost predicate FieldFaultless(f: string, copy: Copy, at: nat) {
    f in CHANGEABLE && forall p :: !CopyFault(f, copy, at, p)
  }

  lemma FieldFaults(f: string, copy: Copy, at: nat)
    ensures (f in FIELDS && CopyOk(f, copy)) <==> FieldFaultless(f, copy, at)
  {
    FieldsAre(f);
    LegibleAre(f);
    if copy.Words? {
      TrimBlank(copy.text);
      assert |copy.text| > 400 ==> CopyFault(f, copy, at, TooLong(at, f));
      assert f in LEGIBLE && Trim(copy.text) == "" ==> CopyFault(f, copy, at, Blanked(at, f));
    }
    if copy.NotText? {
      assert CopyFault(f, copy, at, NotCopy(at, f));
    }
  }

  lemma VariantFaultless(variants: seq<Variant>, at: nat)
    requires at < |variants|
    ensures (VariantOk(variants[at]) && !Repeats(variants, at)) <==> forall p :: !VariantFault(variants, at, p)
  {
    var v := variants[at];
    KeyIsReadable(v.key);
    TrimBlank(v.name);
    TextFaultless(v.text, at);
    if forall p :: !VariantFault(variants, at, p) {
      assert !VariantFault(variants, at, BadKey(at)) && !VariantFault(variants, at, DuplicateKey(at));
      assert !VariantFault(variants, at, NoName(at)) && !VariantFault(variants, at, BadAllocation(at));
      forall p ensures !TextFault(v.text, at, p) {
        assert !VariantFault(variants, at, p);
      }
    }
  }

  lemma DistinctIffNoneRepeats(variants: seq<Variant>)
    ensures DistinctKeys(variants) <==> forall at: nat :: at < |variants| ==> !Repeats(variants, at)
  {
    if !DistinctKeys(variants) {
      var i, j :| 0 <= i < j < |variants| && variants[i].key == variants[j].key;
      assert Repeats(variants, j);
    }
  }

  lemma FaultlessIffWellFormed(variants: seq<Variant>)
    ensures WellFormed(variants) <==> forall p :: !Fault(variants, p)
  {
    forall at: nat | at < |variants|
      ensures (VariantOk(variants[at]) && !Repeats(variants, at)) <==> forall p :: !VariantFault(variants, at, p)
    {
      VariantFaultless(variants, at);
    }
    TotalIsAdded(variants);
    ControlsAreCounted(variants);
    DistinctIffNoneRepeats(variants);
    if forall p :: !Fault(variants, p) {
      assert !Fault(variants, TooFew) && !Fault(variants, WrongTotal(Added(variants)));
      assert !Fault(variants, WrongControls(|ControlsOf(variants)|));
      forall at: nat, p | at < |variants| ensures !VariantFault(variants, at, p) {
        assert !Fault(variants, p);
      }
    }
  }

  // ---- The hash -------------------------------------------------------------

  /** A string as ECMAScript sees it: UTF-16 code units. */
  type Units = seq<bv16>

  const OFFSET_BASIS: nat := 0x811c9dc5
  const PRIME: nat := 0x01000193
  const WORD: nat := 0x1_0000_0000

  /** `^` on two unsigned words. */
  function Xor(h: nat, unit: bv16): (r: nat)
    requires h < WORD
    ensures r < WORD
  {
    ((h as bv32) ^ (unit as bv32)) as nat
  }

  /** FNV-1a, 32 bits: exclusive-or each unit in, then multiply modulo 2^32. */
  function Fnv1a(value: Units): (h: nat)
    ensures h < WORD
  {
    if value == [] then OFFSET_BASIS else (Xor(Fnv1a(value[..|value| - 1]), value[|value| - 1]) * PRIME) % WORD
  }

  method Hash(value: Units) returns (h: nat)
    ensures h == Fnv1a(value) < WORD
  {
    h := OFFSET_BASIS;
    for i := 0 to |value|
      invariant h == Fnv1a(value[..i])
    {
      assert value[..i + 1][..i] == value[..i];
      h := Xor(h, value[i]);
      h := (h * PRIME) % WORD;
    }
    assert value[..|value|] == value;
  }

  lemma OneStep(value: Units, unit: bv16, x: nat)
    requires value == [unit] && Xor(OFFSET_BASIS, unit) == x
    ensures Fnv1a(value) == (x * PRIME) % WORD
  {
    assert value[..0] == [];
  }

  /** The digest of nothing and of the letter `a`, as every implementation of 32-bit FNV-1a gives them. */
  lemma KnownDigests(nothing: Units, a: Units, unit: bv16)
    requires nothing == [] && a == [unit] && Xor(0x811c9dc5, unit) == 0x811c9da4
    ensures Fnv1a(nothing) == 2166136261
    ensures Fnv1a(a) == 3826002220
  {
    OneStep(a, unit, 0x811c9da4);
    assert (0x811c9da4 * 0x01000193) % 0x1_0000_0000 == 3826002220;
  }

  const COLON: bv16 := 58

  function Bucket(experimentId: Units, browserKey: Units): (b: nat)
    ensures b < 100
  {
    Fnv1a(experimentId + [COLON] + browserKey) % 100
  }

  // ---- Assignment -----------------------------------------------------------

  datatype Arm = Arm(key: string, allocation: int)

  predicate ByKey(a: Arm, b: Arm) {
    Leq(a.key, b.key)
  }

  function Sum(arms: seq<Arm>): int {
    if arms == [] then 0 else Sum(arms[..|arms| - 1]) + arms[|arms| - 1].allocation
  }

  /** The first arm whose running total passes the bucket. */
  function Owner(ordered: seq<Arm>, bucket: int): Option<string> {
    if ordered == [] then None
    else
      var earlier := Owner(ordered[..|ordered| - 1], bucket);
      if earlier.Some? then earlier
      else if bucket < Sum(ordered) then Some(ordered[|ordered| - 1].key) else None
  }

  /** The arm of a bucket, whatever order the arms are stored in; none for a broken experiment. */
  function ArmOf(arms: seq<Arm>, bucket: nat): Option<string> {
    if arms == [] || Sum(Sort(arms, ByKey)) != 100 then None else Owner(Sort(arms, ByKey), bucket)
  }

  method AssignVariant(experimentId: Units, browserKey: Units, variants: seq<Arm>) returns (arm: Option<string>)
    ensures arm == if browserKey == [] then None else ArmOf(variants, Bucket(experimentId, browserKey))
    ensures Bucket(experimentId, browserKey) == Fnv1a(experimentId + [0x3A] + browserKey) % 100
    ensures arm.Some? <==> variants != [] && browserKey != [] && Sum(variants) == 100
  {
    SortKeepsSum(variants);
    if variants == [] || browserKey == [] {
      return None;
    }
    var ordered := Sort(variants, ByKey);
    var total := 0;
    for i := 0 to |ordered|
      invariant total == Sum(ordered[..i])
    {
      assert ordered[..i + 1][..i] == ordered[..i];
      total := total + ordered[i].allocation;
    }
    assert ordered[..|ordered|] == ordered;
    if total != 100 {
      return None;
    }
    var h := Hash(experimentId + [COLON] + browserKey);
    arm := Pick(ordered, h % 100);
  }

  /** The walk along the running total; the source's answer for running off its end is never needed. */
  method Pick(ordered: seq<Arm>, bucket: nat) returns (arm: Option<string>)
    requires ordered != [] && bucket < Sum(ordered)
    ensures arm == Owner(ordered, bucket) && arm.Some?
  {
    assert ordered[..|ordered|] == ordered;
    var cursor := 0;
    for i := 0 to |ordered|
      invariant cursor == Sum(ordered[..i]) <= bucket && Owner(ordered[..i], bucket) == None
    {
      assert ordered[..i + 1][..i] == ordered[..i];
      cursor := cursor + ordered[i].allocation;
      if bucket < cursor {
        OwnerExtends(ordered, i + 1, bucket);
        return Some(ordered[i].key);
      }
    }
    assert false;
  }

  /** An arm found among the first `n` is the arm. */
  lemma {:induction false} OwnerExtends(ordered: seq<Arm>, n: nat, bucket: int)
    requires n <= |ordered| && Owner(ordered[..n], bucket).Some?
    ensures Owner(ordered, bucket) == Owner(ordered[..n], bucket)
    decreases |ordered|
  {
    if n < |ordered| {
      var shorter := ordered[..|ordered| - 1];
      assert shorter[..n] == ordered[..n];
      OwnerExtends(shorter, n, bucket);
    } else {
      assert ordered[..n] == ordered;
    }
  }

  lemma {:induction false} SumAppend(a: seq<Arm>, b: seq<Arm>)
    ensures Sum(a + b) == Sum(a) + Sum(b)
    decreases |b|
  {
    if b == [] {
      assert a + b == a;
    } else {
      assert (a + b)[..|a + b| - 1] == a + b[..|b| - 1];
      SumAppend(a, b[..|b| - 1]);
    }
  }

  lemma {:induction false} SumInsert(x: Arm, s: seq<Arm>)
    ensures Sum(Insert(x, s, ByKey)) == x.allocation + Sum(s)
  {
    SumAppend([x], s);
    assert [x][..0] == [];
    if s != [] && !ByKey(x, s[0]) {
      SumInsert(x, s[1..]);
      SumAppend([s[0]], Insert(x, s[1..], ByKey));
      SumAppend([s[0]], s[1..]);
      assert s == [s[0]] + s[1..];
    }
  }

  lemma {:induction false} SortKeepsSum(arms: seq<Arm>)
    ensures Sum(Sort(arms, ByKey)) == Sum(arms)
    ensures Sort(arms, ByKey) == [] <==> arms == []
  {
    if arms != [] {
      SortKeepsSum(arms[1..]);
      SumInsert(arms[0], Sort(arms[1..], ByKey));
      SumAppend([arms[0]], arms[1..]);
      assert [arms[0]][..0] == [];
      assert arms == [arms[0]] + arms[1..];
    }
  }

  predicate DistinctArms(arms: seq<Arm>) {
    forall x, y :: x in arms && y in arms && x.key == y.key ==> x == y
  }

  lemma ByKeyOrders()
    ensures TotalPreorder(ByKey)
  {
    LeqOrders();
  }

  /** The order the arms arrive in from the database cannot reassign anybody. */
  lemma StoredOrderIsIrrelevant(arms: seq<Arm>, stored: seq<Arm>, bucket: nat)
    requires multiset(arms) == multiset(stored) && DistinctArms(arms)
    ensures ArmOf(arms, bucket) == ArmOf(stored, bucket)
  {
    ByKeyOrders();
    LeqOrders();
    SameElements(arms, stored);
    SortForgetsOrder(arms, stored, ByKey);
  }

  predicate NonNegative(arms: seq<Arm>) {
    forall i :: 0 <= i < |arms| ==> arms[i].allocation >= 0
  }

  lemma {:induction false} SumMonotone(arms: seq<Arm>, i: nat)
    requires i <= |arms| && NonNegative(arms)
    ensures 0 <= Sum(arms[..i]) <= Sum(arms)
  {
    SumAppend(arms[..i], arms[i..]);
    assert arms == arms[..i] + arms[i..];
    SumNonNegative(arms[..i]);
    SumNonNegative(arms[i..]);
  }

  lemma {:induction false} SumNonNegative(arms: seq<Arm>)
    requires NonNegative(arms)
    ensures Sum(arms) >= 0
  {
    if arms != [] {
      SumNonNegative(arms[..|arms| - 1]);
    }
  }

  /** An earlier arm's stretch lies below what the arms before the last one add up to. */
  lemma EarlierStretch(ordered: seq<Arm>, shorter: seq<Arm>, i: nat)
    requires NonNegative(ordered) && ordered != [] && shorter == ordered[..|ordered| - 1] && i < |shorter|
    ensures Sum(shorter[..i]) == Sum(ordered[..i]) && shorter[i] == ordered[i]
    ensures Sum(ordered[..i]) + ordered[i].allocation <= Sum(shorter) <= Sum(ordered)
  {
    assert shorter[..i] == ordered[..i];
    SumMonotone(shorter, i + 1);
    SumMonotone(ordered, |shorter|);
    assert shorter[..i + 1][..i] == shorter[..i];
  }

  /** Each arm's buckets are the half-open stretch its allocation adds to the running total. */
  lemma {:induction false} OwnsItsStretch(ordered: seq<Arm>, i: nat, bucket: nat)
    requires NonNegative(ordered) && i < |ordered|
    requires forall a, b :: 0 <= a < b < |ordered| ==> ordered[a].key != ordered[b].key
    ensures Owner(ordered, bucket) == Some(ordered[i].key) <==> Sum(ordered[..i]) <= bucket < Sum(ordered[..i]) + ordered[i].allocation
    ensures Owner(ordered, bucket) == None <==> Sum(ordered) <= bucket
  {
    var n := |ordered| - 1;
    var shorter := ordered[..n];
    if n == 0 {
      assert ordered[..0] == [];
      assert Owner(shorter, bucket) == None;
    } else if i < n {
      OwnsItsStretch(shorter, i, bucket);
      EarlierStretch(ordered, shorter, i);
    } else {
      OwnsItsStretch(shorter, n - 1, bucket);
      if Owner(shorter, bucket).Some? {
        OwnerIsAnArm(shorter, bucket);
      }
    }
  }

  lemma {:induction false} OwnerIsAnArm(ordered: seq<Arm>, bucket: int)
    requires Owner(ordered, bucket).Some?
    ensures exists k :: 0 <= k < |ordered| && Owner(ordered, bucket) == Some(ordered[k].key)
  {
    var shorter := ordered[..|ordered| - 1];
    if Owner(shorter, bucket).Some? {
      OwnerIsAnArm(shorter, bucket);
      var k :| 0 <= k < |shorter| && Owner(shorter, bucket) == Some(shorter[k].key);
      assert ordered[k] == shorter[k];
    } else {
      assert Owner(ordered, bucket) == Some(ordered[|ordered| - 1].key);
    }
  }

  function Buckets(arms: seq<Arm>, key: string): set<nat> {
    set b: nat | b < 100 && ArmOf(arms, b) == Some(key)
  }

  predicate Within(b: nat, lo: nat, hi: nat) { lo <= b < hi }

  function Stretch(lo: nat, hi: nat): set<nat> {
    set b: nat | b < hi && Within(b, lo, hi)
  }

  lemma {:induction false} StretchSize(lo: nat, hi: nat)
    requires lo <= hi
    ensures |Stretch(lo, hi)| == hi - lo
    decreases hi
  {
    if lo < hi {
      StretchSize(lo, hi - 1);
      assert Stretch(lo, hi) == Stretch(lo, hi - 1) + {hi - 1};
    } else {
      assert Stretch(lo, hi) == {};
    }
  }

  function ArmsOf(variants: seq<Variant>): seq<Arm> {
    Map(variants, (v: Variant) => Arm(v.key, Percent(v)))
  }

  lemma {:induction false} TotalIsSum(variants: seq<Variant>)
    ensures Sum(ArmsOf(variants)) == Total(variants)
  {
    if variants != [] {
      TotalIsSum(variants[..|variants| - 1]);
      assert ArmsOf(variants)[..|variants| - 1] == ArmsOf(variants[..|variants| - 1]);
    }
  }

  /** Of the hundred buckets each arm of a validated experiment owns exactly its allocation, and every bucket is owned. */
  lemma EachArmOwnsItsAllocation(variants: seq<Variant>, v: Variant)
    requires WellFormed(variants) && v in variants
    ensures |Buckets(ArmsOf(variants), v.key)| == v.allocation.percent
    ensures forall b: nat :: b < 100 ==> ArmOf(ArmsOf(variants), b).Some?
  {
    var arms := ArmsOf(variants);
    var ordered := Sort(arms, ByKey);
    TotalIsSum(variants);
    SortKeepsSum(arms);
    ByKeyOrders();
    SortSorts(arms, ByKey);
    OrderedArms(variants, ordered);
    var arm := Arm(v.key, Percent(v));
    assert arm in arms by { var k := IndexOf(variants, v); assert arms[k] == arm; }
    var i := IndexOf(ordered, arm);
    BucketsAreAStretch(arms, ordered, i);
  }

  lemma BucketsAreAStretch(arms: seq<Arm>, ordered: seq<Arm>, i: nat)
    requires ordered == Sort(arms, ByKey) && arms != [] && Sum(ordered) == 100 && NonNegative(ordered) && i < |ordered|
    requires forall a, b :: 0 <= a < b < |ordered| ==> ordered[a].key != ordered[b].key
    ensures |Buckets(arms, ordered[i].key)| == ordered[i].allocation
    ensures forall b: nat :: b < 100 ==> ArmOf(arms, b).Some?
  {
    var lo, hi := Sum(ordered[..i]), Sum(ordered[..i + 1]);
    SumMonotone(ordered, i);
    SumMonotone(ordered, i + 1);
    assert ordered[..i + 1][..i] == ordered[..i];
    forall b: nat | b < 100
      ensures ArmOf(arms, b) == Some(ordered[i].key) <==> Within(b, lo, hi)
      ensures ArmOf(arms, b).Some?
    {
      OwnsItsStretch(ordered, i, b);
    }
    assert Buckets(arms, ordered[i].key) == Stretch(lo, hi);
    StretchSize(lo, hi);
  }

  lemma OrderedArms(variants: seq<Variant>, ordered: seq<Arm>)
    requires WellFormed(variants) && multiset(ordered) == multiset(ArmsOf(variants))
    ensures NonNegative(ordered)
    ensures forall a, b :: 0 <= a < b < |ordered| ==> ordered[a].key != ordered[b].key
    ensures DistinctArms(ArmsOf(variants))
  {
    var arms := ArmsOf(variants);
    SameElements(ordered, arms);
    forall i | 0 <= i < |ordered| ensures ordered[i].allocation >= 0 {
      assert ordered[i] in arms;
    }
    DistinctImages(arms, ordered, (x: Arm) => x.key);
  }

  // ---- Where an arm lies ----------------------------------------------------

  /** What the arms before a key, in the order of the keys, add up to. */
  function Below(arms: seq<Arm>, key: string): int {
    Sum(Filter(arms, (x: Arm) => Less(x.key, key)))
  }

  lemma SameSum(a: seq<Arm>, b: seq<Arm>)
    requires multiset(a) == multiset(b) && DistinctArms(a)
    ensures Sum(a) == Sum(b)
  {
    ByKeyOrders();
    LeqOrders();
    SameElements(a, b);
    SortForgetsOrder(a, b, ByKey);
    SortKeepsSum(a);
    SortKeepsSum(b);
  }

  lemma BelowForgetsOrder(arms: seq<Arm>, ordered: seq<Arm>, key: string)
    requires multiset(arms) == multiset(ordered) && DistinctArms(arms)
    ensures Below(arms, key) == Below(ordered, key)
  {
    var before := (x: Arm) => Less(x.key, key);
    FilterMultiset(arms, before);
    FilterMultiset(ordered, before);
    forall x, y | x in Filter(arms, before) && y in Filter(arms, before) && x.key == y.key ensures x == y {
      FilterMember(arms, before, x);
      FilterMember(arms, before, y);
    }
    assert multiset(Filter(arms, before)) == multiset(Filter(ordered, before));
    SameSum(Filter(arms, before), Filter(ordered, before));
  }

  lemma {:induction false} FilterPrefix(ordered: seq<Arm>, i: nat, keep: Arm -> bool)
    requires i <= |ordered|
    requires forall k :: 0 <= k < |ordered| ==> (keep(ordered[k]) <==> k < i)
    ensures Filter(ordered, keep) == ordered[..i]
  {
    if i > 0 {
      FilterPrefix(ordered[1..], i - 1, keep);
      assert ordered[..i] == [ordered[0]] + ordered[1..][..i - 1];
    } else {
      NothingKept(ordered, keep);
    }
  }

  lemma {:induction false} NothingKept(ordered: seq<Arm>, keep: Arm -> bool)
    requires forall x :: x in ordered ==> !keep(x)
    ensures Filter(ordered, keep) == []
  {
    if ordered != [] {
      NothingKept(ordered[1..], keep);
    }
  }

  /** Arms take the buckets in the order of their keys: each from where those before it end, as many as its allocation. */
  lemma ArmLiesAfterThoseBefore(variants: seq<Variant>, v: Variant, bucket: nat)
    requires WellFormed(variants) && v in variants && bucket < 100
    ensures var from := Below(ArmsOf(variants), v.key);
            ArmOf(ArmsOf(variants), bucket) == Some(v.key) <==> from <= bucket < from + v.allocation.percent
  {
    var arms := ArmsOf(variants);
    var ordered := Sort(arms, ByKey);
    var arm := Arm(v.key, Percent(v));
    TotalIsSum(variants);
    SortKeepsSum(arms);
    ByKeyOrders();
    SortSorts(arms, ByKey);
    OrderedArms(variants, ordered);
    assert arm in arms by { var k := IndexOf(variants, v); assert arms[k] == arm; }
    var i := IndexOf(ordered, arm);
    OwnsItsStretch(ordered, i, bucket);
    BelowForgetsOrder(arms, ordered, v.key);
    BelowIsPrefix(ordered, i);
  }

  lemma BelowIsPrefix(ordered: seq<Arm>, i: nat)
    requires i < |ordered| && Sorted(ordered, ByKey)
    requires forall a, b :: 0 <= a < b < |ordered| ==> ordered[a].key != ordered[b].key
    ensures Below(ordered, ordered[i].key) == Sum(ordered[..i])
  {
    LeqOrders();
    forall k | 0 <= k < |ordered| ensures Less(ordered[k].key, ordered[i].key) <==> k < i {
      if k < i {
        assert ByKey(ordered[k], ordered[i]);
      } else if i < k {
        assert ByKey(ordered[i], ordered[k]);
      }
    }
    FilterPrefix(ordered, i, (x: Arm) => Less(x.key, ordered[i].key));
  }
}
