/**
 * The fixed-window limiter: one table of windows shared by every key, bounded by eviction.
 */
module RateLimit {
  import opened Text
  import opened Sequences
  import opened InsertionMaps

  datatype Rule = Rule(limit: int, windowMs: int)
  datatype Window = Window(count: nat, resetAt: int)
  datatype Verdict = Verdict(allowed: bool, limit: int, remaining: int, retryAfterSeconds: int)

  type Windows = Dict<string, Window>

  const MAX_TRACKED_KEYS: nat := 50_000

  /** Rounded up, and never less than one. */
  function SecondsUntil(resetAt: int, now: int): (s: int)
    ensures s >= 1 && resetAt <= now + 1000 * s
    ensures s > 1 ==> now + 1000 * (s - 1) < resetAt
  {
    var up := -((now - resetAt) / 1000);
    if up < 1 then 1 else up
  }

  // ---- Eviction -------------------------------------------------------------

  function Live(d: Windows, now: int): seq<string> {
    LiveAmong(d, d.keys, now)
  }

  /** The live windows; in a flood only the younger half of the room is kept. */
  function Kept(d: Windows, now: int): seq<string> {
    var live := Live(d, now);
    if |live| >= MAX_TRACKED_KEYS then live[|live| - MAX_TRACKED_KEYS / 2..] else live
  }

  function Restrict(d: Windows, keys: seq<string>): Windows {
    Dict(keys, map k | k in keys && k in d.table :: d.table[k])
  }

  /** Nothing in `kept` is new or altered. */
  ghost predicate PartOf(kept: Windows, d: Windows) {
    kept.Valid() && forall k :: k in kept.table ==> k in d.table && kept.table[k] == d.table[k]
  }

  lemma PartIsRestriction(kept: Windows, d: Windows)
    requires PartOf(kept, d)
    ensures kept == Restrict(d, kept.keys)
  {
    assert kept.table == Restrict(d, kept.keys).table;
  }

  method EvictExpired(d: Windows, now: int) returns (kept: Windows)
    requires d.Valid()
    ensures kept.Valid() && kept == Restrict(d, Kept(d, now))
    ensures |kept.keys| < 50_000 && PartOf(kept, d) && KeepsOrder(kept.keys, d.keys)
    ensures |LiveKeys(d, now)| < 50_000 ==> kept.table.Keys == LiveKeys(d, now)
    ensures |LiveKeys(d, now)| >= 50_000 ==> |kept.table.Keys| == 25_000 && Youngest(kept.table.Keys, d, now)
  {
    kept := DeleteExpired(d, now);
    if |kept.keys| >= MAX_TRACKED_KEYS {
      var excess := |kept.keys| - MAX_TRACKED_KEYS / 2;
      kept := DeleteOldest(kept, excess);
    }
    PartIsRestriction(kept, d);
    KeptIs(kept, d, now);
  }

  // What an eviction leaves, said of the tables alone: which keys, how many, and in which order.

  ghost function LiveKeys(d: Windows, now: int): set<string> {
    set k | k in d.table && d.table[k].resetAt > now
  }

  ghost predicate Earlier(keys: seq<string>, a: string, b: string) {
    exists i, j :: 0 <= i < j < |keys| && keys[i] == a && keys[j] == b
  }

  ghost predicate KeepsOrder(kept: seq<string>, keys: seq<string>) {
    forall a, b :: Earlier(kept, a, b) ==> Earlier(keys, a, b)
  }

  /** Live keys only, and none of them set before a live one that is left out. */
  ghost predicate Youngest(kept: set<string>, d: Windows, now: int) {
    kept <= LiveKeys(d, now) && forall a, b :: a in kept && Earlier(d.keys, a, b) && b in LiveKeys(d, now) ==> b in kept
  }

  lemma {:induction false} FilterOrder(s: seq<string>, keep: string -> bool, a: string, b: string)
    ensures Earlier(Filter(s, keep), a, b) ==> Earlier(s, a, b)
    ensures Earlier(s, a, b) && keep(a) && keep(b) ==> Earlier(Filter(s, keep), a, b)
  {
    if s != [] {
      FilterOrder(s[1..], keep, a, b);
      FilterMember(s[1..], keep, b);
      EarlierFront(s[0], s[1..], a, b);
      assert s == [s[0]] + s[1..];
      if keep(s[0]) {
        EarlierFront(s[0], Filter(s[1..], keep), a, b);
      } else {
        assert Filter(s, keep) == Filter(s[1..], keep);
      }
    }
  }

  lemma EarlierFront(x: string, s: seq<string>, a: string, b: string)
    ensures Earlier([x] + s, a, b) <==> (x == a && b in s) || Earlier(s, a, b)
  {
    var whole := [x] + s;
    if x == a && b in s {
      var j := IndexOf(s, b);
      assert whole[0] == a && whole[j + 1] == b;
    }
    if i, j :| 0 <= i < j < |s| && s[i] == a && s[j] == b {
      assert whole[i + 1] == a && whole[j + 1] == b;
    }
    if i, j :| 0 <= i < j < |whole| && whole[i] == a && whole[j] == b {
      assert s[j - 1] == b;
      assert i > 0 ==> s[i - 1] == a;
    }
  }

  lemma LiveIs(d: Windows, now: int)
    requires d.Valid()
    ensures KeepsOrder(Live(d, now), d.keys) && KeySet(Live(d, now)) == LiveKeys(d, now) && |LiveKeys(d, now)| == |Live(d, now)|
    ensures forall a, b :: a in Live(d, now) && b in Live(d, now) && Earlier(d.keys, a, b) ==> Earlier(Live(d, now), a, b)
    ensures forall i, j :: 0 <= i < j < |Live(d, now)| ==> Live(d, now)[i] != Live(d, now)[j]
  {
    var keep := (k: string) => k in d.table && d.table[k].resetAt > now;
    var live := Live(d, now);
    LiveMembers(d, now);
    FilterDistinct(d.keys, keep);
    PrefixSize(live, |live|);
    assert live[..|live|] == live;
    forall a, b
      ensures Earlier(live, a, b) ==> Earlier(d.keys, a, b)
      ensures a in live && b in live && Earlier(d.keys, a, b) ==> Earlier(live, a, b)
    {
      FilterOrder(d.keys, keep, a, b);
    }
  }

  /** What is left of a list of distinct keys from some place on: that many, in their order, and with each every later one. */
  lemma SuffixIs(keys: seq<string>, from: nat)
    requires from <= |keys| && forall i, j :: 0 <= i < j < |keys| ==> keys[i] != keys[j]
    ensures KeepsOrder(keys[from..], keys) && |KeySet(keys[from..])| == |keys| - from
    ensures forall a, b :: a in keys[from..] && Earlier(keys, a, b) ==> b in keys[from..]
  {
    var late := keys[from..];
    PrefixSize(late, |late|);
    assert late[..|late|] == late;
    forall a, b | Earlier(late, a, b) ensures Earlier(keys, a, b) {
      var i, j :| 0 <= i < j < |late| && late[i] == a && late[j] == b;
      assert keys[from + i] == a && keys[from + j] == b;
    }
    forall a, b | a in late && Earlier(keys, a, b) ensures b in late {
      var i, j :| 0 <= i < j < |keys| && keys[i] == a && keys[j] == b;
      var p := IndexOf(late, a);
      assert keys[from + p] == a;
      assert late[j - from] == b;
    }
  }

  lemma KeptKeysAre(d: Windows, now: int)
    requires d.Valid()
    ensures var kept := Kept(d, now);
            && KeepsOrder(kept, d.keys) && |kept| < 50_000
            && (|LiveKeys(d, now)| < 50_000 ==> KeySet(kept) == LiveKeys(d, now))
            && (|LiveKeys(d, now)| >= 50_000 ==> |KeySet(kept)| == 25_000 && Youngest(KeySet(kept), d, now))
  {
    LiveIs(d, now);
    var live := Live(d, now);
    if |live| >= 50_000 {
      SuffixIs(live, |live| - 25_000);
    }
  }

  lemma KeptIs(kept: Windows, d: Windows, now: int)
    requires d.Valid() && PartOf(kept, d) && kept.keys == Kept(d, now)
    ensures KeepsOrder(kept.keys, d.keys) && |kept.keys| < 50_000
    ensures |LiveKeys(d, now)| < 50_000 ==> kept.table.Keys == LiveKeys(d, now)
    ensures |LiveKeys(d, now)| >= 50_000 ==> |kept.table.Keys| == 25_000 && Youngest(kept.table.Keys, d, now)
  {
    KeptKeysAre(d, now);
    assert kept.table.Keys == KeySet(kept.keys);
  }

  /** Keys come out in the order they were set, so the first ones are the oldest. */
  method DeleteOldest(d: Windows, excess: nat) returns (kept: Windows)
    requires d.Valid() && excess <= |d.keys|
    ensures PartOf(kept, d) && kept.keys == d.keys[excess..]
  {
    kept := d;
    var removed := 0;
    while removed < excess
      invariant 0 <= removed <= excess
      invariant PartOf(kept, d) && kept.keys == d.keys[removed..]
    {
      var key := kept.keys[0];
      assert kept.keys[1..] == d.keys[removed + 1..];
      kept := kept.Drop(key);
      removed := removed + 1;
    }
  }

  method DeleteExpired(d: Windows, now: int) returns (kept: Windows)
    requires d.Valid()
    ensures PartOf(kept, d) && kept.keys == Live(d, now)
  {
    kept := d;
    assert d.keys[0..] == d.keys;
    for i := 0 to |d.keys|
      invariant PartOf(kept, d) && kept.keys == LiveAmong(d, d.keys[..i], now) + d.keys[i..]
    {
      var key := d.keys[i];
      assert key in d.keys;
      DeleteStep(d, i, now);
      if d.table[key].resetAt <= now {
        kept := kept.Drop(key);
      }
    }
    assert d.keys[..|d.keys|] == d.keys;
  }

  function LiveAmong(d: Windows, keys: seq<string>, now: int): seq<string> {
    Filter(keys, (k: string) => k in d.table && d.table[k].resetAt > now)
  }

  lemma DeleteStep(d: Windows, i: nat, now: int)
    requires d.Valid() && i < |d.keys| && d.keys[i] in d.table
    ensures LiveAmong(d, d.keys[..i + 1], now) + d.keys[i + 1..]
            == if d.table[d.keys[i]].resetAt <= now then Remove(LiveAmong(d, d.keys[..i], now) + d.keys[i..], d.keys[i])
               else LiveAmong(d, d.keys[..i], now) + d.keys[i..]
  {
    FilterStep(d.keys, i, (k: string) => k in d.table && d.table[k].resetAt > now);
  }

  /** Passing one more key through a filter: it stays where it is, or it is removed. */
  lemma FilterStep(keys: seq<string>, i: nat, keep: string -> bool)
    requires i < |keys| && forall a, b :: 0 <= a < b < |keys| ==> keys[a] != keys[b]
    ensures Filter(keys[..i + 1], keep) + keys[i + 1..]
            == if keep(keys[i]) then Filter(keys[..i], keep) + keys[i..] else Remove(Filter(keys[..i], keep) + keys[i..], keys[i])
  {
    var key, before, rest := keys[i], Filter(keys[..i], keep), keys[i + 1..];
    assert keys[i..] == [key] + rest;
    FilterOneMore(keys, i, keep);
    assert before + ([key] + rest) == before + [key] + rest;
    if !keep(key) {
      NotAmongEarlier(keys, i, keep);
      RemoveMiddle(before, key, rest);
    }
  }

  lemma FilterOneMore(keys: seq<string>, i: nat, keep: string -> bool)
    requires i < |keys|
    ensures Filter(keys[..i + 1], keep) == if keep(keys[i]) then Filter(keys[..i], keep) + [keys[i]] else Filter(keys[..i], keep)
  {
    assert keys[..i + 1] == keys[..i] + [keys[i]];
    FilterAppend(keys[..i], [keys[i]], keep);
    assert Filter([keys[i]], keep) == if keep(keys[i]) then [keys[i]] else [];
  }

  lemma NotAmongEarlier(keys: seq<string>, i: nat, keep: string -> bool)
    requires i < |keys| && forall a, b :: 0 <= a < b < |keys| ==> keys[a] != keys[b]
    ensures keys[i] !in Filter(keys[..i], keep)
  {
    FilterMember(keys[..i], keep, keys[i]);
  }

  lemma LiveMembers(d: Windows, now: int)
    requires d.Valid()
    ensures forall k :: k in Live(d, now) <==> k in d.table && d.table[k].resetAt > now
  {
    forall k: string ensures k in Live(d, now) <==> k in d.table && d.table[k].resetAt > now {
      FilterMember(d.keys, (x: string) => x in d.table && d.table[x].resetAt > now, k);
    }
  }

  // ---- One hit --------------------------------------------------------------

  /** What one hit does to the hit key's own window, and whether it is let through. */
  function Hit(w: Option<Window>, rule: Rule, now: int): (Window, Verdict) {
    if w.None? || w.value.resetAt <= now then
      var resetAt := now + rule.windowMs;
      (Window(1, resetAt), Verdict(true, rule.limit, rule.limit - 1, SecondsUntil(resetAt, now)))
    else
      var count := w.value.count + 1;
      (Window(count, w.value.resetAt),
       Verdict(count <= rule.limit, rule.limit, if rule.limit - count > 0 then rule.limit - count else 0,
               SecondsUntil(w.value.resetAt, now)))
  }

  function WindowOf(d: Windows, key: string): Option<Window> {
    if key in d.table then Some(d.table[key]) else None
  }

  predicate Opens(d: Windows, key: string, now: int) {
    key !in d.table || d.table[key].resetAt <= now
  }

  /** The table as the hit finds it: a full one is cleared out first, but only when a window opens. */
  function Room(d: Windows, key: string, now: int): Windows {
    if Opens(d, key, now) && |d.keys| >= MAX_TRACKED_KEYS then Restrict(d, Kept(d, now)) else d
  }

  predicate TableOk(d: Windows) {
    |d.keys| <= MAX_TRACKED_KEYS
  }

  lemma {:induction false} FilterShortens(s: seq<string>, keep: string -> bool)
    ensures |Filter(s, keep)| <= |s|
  {
    if s != [] { FilterShortens(s[1..], keep); }
  }

  /** The module's table of windows. */
  class Limiter {
    var windows: Windows

    constructor ()
      ensures windows.Valid() && windows == Empty()
    {
      windows := Empty();
    }

    /** `checkRateLimit`: the verdict is the key's own window's, and no other live window changes unless dropped. */
    method CheckRateLimit(key: string, rule: Rule, now: int) returns (verdict: Verdict)
      requires windows.Valid() && TableOk(windows)
      modifies this
      ensures windows.Valid() && TableOk(windows)
      ensures windows == After(old(windows), key, rule, now) && verdict == Hit(old(WindowOf(windows, key)), rule, now).1
      ensures Answered(old(windows.table), windows.table, key, rule, now, verdict)
      ensures OthersKept(old(windows), windows, key, now)
    {
      HitFares(windows, key, rule, now);
      if key !in windows.table || windows.table[key].resetAt <= now {
        if |windows.keys| >= MAX_TRACKED_KEYS {
          windows := EvictExpired(windows, now);
        }
        var resetAt := now + rule.windowMs;
        windows := windows.Put(key, Window(1, resetAt));
        return Verdict(true, rule.limit, rule.limit - 1, SecondsUntil(resetAt, now));
      }
      var existing := windows.table[key];
      existing := existing.(count := existing.count + 1);
      windows := windows.Put(key, existing);
      var remaining := if rule.limit - existing.count > 0 then rule.limit - existing.count else 0;
      verdict := Verdict(existing.count <= rule.limit, rule.limit, remaining, SecondsUntil(existing.resetAt, now));
    }
  }

  /** Only windows of a full table go missing, when another opens, and a live one only beside 50,000 live ones. */
  ghost predicate OthersKept(d: Windows, after: Windows, key: string, now: int) {
    && (forall other :: other in after.table && other != key ==> other in d.table && after.table[other] == d.table[other])
    && (forall other :: other in d.table && other !in after.table ==>
          && (key !in d.table || d.table[key].resetAt <= now)
          && |d.keys| >= 50_000
          && (d.table[other].resetAt > now ==> |LiveKeys(d, now)| >= 50_000))
  }

  /** An open window counts one more and lets that through up to the limit; otherwise a new one opens and lets it through. */
  ghost predicate Answered(was: map<string, Window>, after: map<string, Window>, key: string, rule: Rule, now: int, verdict: Verdict) {
    && key in after
    && if key !in was || was[key].resetAt <= now then
         && after[key] == Window(1, now + rule.windowMs)
         && verdict == Verdict(true, rule.limit, rule.limit - 1, SecondsUntil(now + rule.windowMs, now))
       else
         && after[key] == was[key].(count := was[key].count + 1)
         && verdict.allowed == (was[key].count < rule.limit) && verdict.limit == rule.limit
         && verdict.remaining == (if was[key].count < rule.limit then rule.limit - was[key].count - 1 else 0)
         && verdict.retryAfterSeconds == SecondsUntil(was[key].resetAt, now)
  }

  lemma HitFares(d: Windows, key: string, rule: Rule, now: int)
    requires d.Valid()
    ensures OthersKept(d, After(d, key, rule, now), key, now)
    ensures Answered(d.table, After(d, key, rule, now).table, key, rule, now, Hit(WindowOf(d, key), rule, now).1)
  {
    forall other: string
      ensures other in After(d, key, rule, now).table && other != key ==>
                other in d.table && After(d, key, rule, now).table[other] == d.table[other]
      ensures other in d.table && other !in After(d, key, rule, now).table && d.table[other].resetAt > now ==>
                |LiveKeys(d, now)| >= 50_000
    {
      RoomKeeps(d, key, now, other);
    }
  }

  /** The table after a hit. */
  ghost function After(d: Windows, key: string, rule: Rule, now: int): Windows {
    var room := Room(d, key, now);
    Dict(if key in room.table then room.keys else room.keys + [key],
         room.table[key := Hit(WindowOf(d, key), rule, now).0])
  }

  // ---- Many hits ------------------------------------------------------------

  datatype Call = Call(key: string, now: int)

  /** The clock the limiter is given never goes back. */
  predicate ClockRuns(calls: seq<Call>) {
    forall i, j :: 0 <= i < j < |calls| ==> calls[i].now <= calls[j].now
  }

  ghost function Run(rules: string -> Rule, calls: seq<Call>): Windows {
    if calls == [] then Empty()
    else
      var last := calls[|calls| - 1];
      After(Run(rules, calls[..|calls| - 1]), last.key, rules(last.key), last.now)
  }

  ghost function VerdictAt(rules: string -> Rule, calls: seq<Call>, i: nat): Verdict
    requires i < |calls|
  {
    Hit(WindowOf(Run(rules, calls[..i]), calls[i].key), rules(calls[i].key), calls[i].now).1
  }

  /** A live window of the key went missing when call `i` made room. */
  ghost predicate Dropped(rules: string -> Rule, calls: seq<Call>, i: nat, key: string)
    requires i < |calls|
  {
    var d := Run(rules, calls[..i]);
    key in d.table && d.table[key].resetAt > calls[i].now && key !in Run(rules, calls[..i + 1]).table
  }

  lemma RoomKeeps(d: Windows, key: string, now: int, other: string)
    requires d.Valid()
    ensures Room(d, key, now).Valid() && |Room(d, key, now).keys| <= |d.keys|
    ensures |Room(d, key, now).keys| < MAX_TRACKED_KEYS || !Opens(d, key, now)
    ensures other in Room(d, key, now).table ==> other in d.table && Room(d, key, now).table[other] == d.table[other]
    ensures other in d.table && other !in Room(d, key, now).table && d.table[other].resetAt > now ==> |LiveKeys(d, now)| >= 50_000
  {
    if Opens(d, key, now) && |d.keys| >= MAX_TRACKED_KEYS {
      LiveIs(d, now);
      KeptIsValid(d, now);
      LiveMembers(d, now);
    }
  }

  lemma KeptIsValid(d: Windows, now: int)
    requires d.Valid()
    ensures Restrict(d, Kept(d, now)).Valid() && |Kept(d, now)| < MAX_TRACKED_KEYS && |Kept(d, now)| <= |d.keys|
  {
    LiveMembers(d, now);
    FilterShortens(d.keys, (k: string) => k in d.table && d.table[k].resetAt > now);
    FilterDistinct(d.keys, (k: string) => k in d.table && d.table[k].resetAt > now);
    var kept, live := Kept(d, now), Live(d, now);
    forall i | 0 <= i < |kept| ensures kept[i] in live {
      if |live| >= MAX_TRACKED_KEYS { assert kept[i] == live[i + |live| - MAX_TRACKED_KEYS / 2]; }
    }
  }

  /** However many keys a flood cycles through, the table is bounded, and an eviction spares live windows unless full of them. */
  lemma {:induction false} TableIsBounded(rules: string -> Rule, calls: seq<Call>)
    ensures Run(rules, calls).Valid() && |Run(rules, calls).keys| <= 50_000
    decreases |calls|
  {
    if calls != [] {
      var last := calls[|calls| - 1];
      TableIsBounded(rules, calls[..|calls| - 1]);
      RoomKeeps(Run(rules, calls[..|calls| - 1]), last.key, last.now, last.key);
    }
  }

  lemma DroppedOnlyInAFlood(rules: string -> Rule, calls: seq<Call>, i: nat, key: string)
    requires i < |calls| && Dropped(rules, calls, i, key)
    ensures |LiveKeys(Run(rules, calls[..i]), calls[i].now)| >= 50_000 && key != calls[i].key
  {
    TableIsBounded(rules, calls[..i]);
    assert calls[..i + 1][..i] == calls[..i];
    RoomKeeps(Run(rules, calls[..i]), calls[i].key, calls[i].now, key);
  }

  // ---- One key seen alone ---------------------------------------------------

  /** The key's window if no other key existed and nothing were ever evicted. */
  ghost function Alone(rule: Rule, calls: seq<Call>, key: string): Option<Window> {
    if calls == [] then None
    else
      var before := Alone(rule, calls[..|calls| - 1], key);
      var last := calls[|calls| - 1];
      if last.key == key then Some(Hit(before, rule, last.now).0) else before
  }

  /** The shared table answers for the key as a private window would. */
  ghost predicate Agrees(d: Windows, alone: Option<Window>, key: string, now: int) {
    WindowOf(d, key) == alone || (key !in d.table && alone.Some? && alone.value.resetAt <= now)
  }

  ghost predicate NeverDropped(rules: string -> Rule, calls: seq<Call>, key: string) {
    forall i: nat :: i < |calls| ==> !Dropped(rules, calls, i, key)
  }

  /** Sharing the table changes nothing for a key whose live windows no flood dropped. */
  lemma {:induction false} SharedAgreesWithAlone(rules: string -> Rule, calls: seq<Call>, key: string, now: int)
    requires ClockRuns(calls) && NeverDropped(rules, calls, key)
    requires calls != [] ==> calls[|calls| - 1].now <= now
    ensures Agrees(Run(rules, calls), Alone(rules(key), calls, key), key, now)
    decreases |calls|
  {
    if calls != [] {
      var n := |calls| - 1;
      var before, last := calls[..n], calls[n];
      NeverDroppedBefore(rules, calls, key);
      SharedAgreesWithAlone(rules, before, key, last.now);
      TableIsBounded(rules, before);
      RoomKeeps(Run(rules, before), last.key, last.now, key);
      assert !Dropped(rules, calls, n, key);
      assert calls[..n + 1] == calls;
    }
  }

  lemma NeverDroppedBefore(rules: string -> Rule, calls: seq<Call>, key: string)
    requires calls != [] && NeverDropped(rules, calls, key)
    ensures NeverDropped(rules, calls[..|calls| - 1], key)
  {
    var before := calls[..|calls| - 1];
    forall i: nat | i < |before| ensures !Dropped(rules, before, i, key) {
      assert before[..i] == calls[..i] && before[..i + 1] == calls[..i + 1];
      assert !Dropped(rules, calls, i, key);
    }
  }

  // ---- How many get through -------------------------------------------------

  function AtLeastOne(limit: int): nat {
    if limit < 1 then 1 else limit
  }

  function Least(a: nat, b: nat): nat {
    if a < b then a else b
  }

  /** Hits of the key let through at a time in [from, to). */
  ghost function Through(rules: string -> Rule, calls: seq<Call>, key: string, from: int, to: int): nat {
    if calls == [] then 0
    else
      var n := |calls| - 1;
      Through(rules, calls[..n], key, from, to)
      + if calls[n].key == key && from <= calls[n].now < to && VerdictAt(rules, calls, n).allowed then 1 else 0
  }

  /** How far the count can be, given the window the key is in and when that began. */
  ghost predicate Bounded(through: nat, alone: Option<Window>, rule: Rule, from: int, now: int) {
    var most := AtLeastOne(rule.limit);
    match alone
    case None => through == 0
    case Some(w) =>
      var start := w.resetAt - rule.windowMs;
      && start <= now
      && (now < from ==> through == 0)
      && through <= 2 * most
      && (start < from ==> through <= Least(w.count, most))
      && (from <= start < from + rule.windowMs ==> through <= most + Least(w.count, most))
  }

  lemma {:induction false} SpanInvariant(rules: string -> Rule, calls: seq<Call>, key: string, from: int, now: int)
    requires ClockRuns(calls) && NeverDropped(rules, calls, key)
    requires calls != [] ==> calls[|calls| - 1].now <= now
    ensures Bounded(Through(rules, calls, key, from, from + rules(key).windowMs), Alone(rules(key), calls, key), rules(key), from, now)
    decreases |calls|
  {
    if calls != [] {
      var n := |calls| - 1;
      var before, last := calls[..n], calls[n];
      NeverDroppedBefore(rules, calls, key);
      SpanInvariant(rules, before, key, from, last.now);
      SharedAgreesWithAlone(rules, before, key, last.now);
      if last.key == key {
        AgreesOnVerdict(Run(rules, before), Alone(rules(key), before, key), key, rules(key), last.now);
      }
    }
  }

  lemma AgreesOnVerdict(d: Windows, alone: Option<Window>, key: string, rule: Rule, now: int)
    requires Agrees(d, alone, key, now)
    ensures Hit(WindowOf(d, key), rule, now) == Hit(alone, rule, now)
  {
  }

  /**
   * The sliding bound of a fixed window: in any span as long as the window at most twice the limit
   * gets through (or two, where the rule says less than one), unless a flood dropped the key's window.
   */
  lemma AtMostTwiceTheLimit(rules: string -> Rule, calls: seq<Call>, key: string, from: int)
    requires ClockRuns(calls) && NeverDropped(rules, calls, key)
    ensures Through(rules, calls, key, from, from + rules(key).windowMs) <= 2 * AtLeastOne(rules(key).limit)
  {
    if calls != [] {
      SpanInvariant(rules, calls, key, from, calls[|calls| - 1].now);
    }
  }

  /** Hits let through since the key's current window opened. */
  ghost function ThroughWindow(rules: string -> Rule, calls: seq<Call>, key: string): nat {
    if calls == [] then 0
    else
      var n := |calls| - 1;
      var before := ThroughWindow(rules, calls[..n], key);
      if calls[n].key != key then before
      else if Opens(Run(rules, calls[..n]), key, calls[n].now) then 1
      else before + if VerdictAt(rules, calls, n).allowed then 1 else 0
  }

  /** Within one window exactly the first hits get through, as many as the limit (one, where it says less). */
  lemma {:induction false} WindowLetsTheLimitThrough(rules: string -> Rule, calls: seq<Call>, key: string)
    requires ClockRuns(calls) && NeverDropped(rules, calls, key)
    ensures match Alone(rules(key), calls, key)
            case None => ThroughWindow(rules, calls, key) == 0
            case Some(w) => ThroughWindow(rules, calls, key) == Least(w.count, AtLeastOne(rules(key).limit)) && w.count >= 1
    decreases |calls|
  {
    if calls != [] {
      var n := |calls| - 1;
      NeverDroppedBefore(rules, calls, key);
      WindowLetsTheLimitThrough(rules, calls[..n], key);
      SharedAgreesWithAlone(rules, calls[..n], key, calls[n].now);
    }
  }

  /** A refused caller that waits as long as it is told is let through, whoever else calls meanwhile. */
  lemma WaitingIsEnough(rules: string -> Rule, calls: seq<Call>, i: nat, j: nat)
    requires ClockRuns(calls) && i < j < |calls| && calls[i].key == calls[j].key
    requires forall m :: i < m < j ==> calls[m].key != calls[i].key
    requires !VerdictAt(rules, calls, i).allowed
    requires calls[j].now >= calls[i].now + 1000 * VerdictAt(rules, calls, i).retryAfterSeconds
    ensures VerdictAt(rules, calls, j).allowed
  {
    var key := calls[i].key;
    var reset := Run(rules, calls[..i]).table[key].resetAt;
    UntouchedUntil(rules, calls, i, j, reset);
  }

  predicate ResetsAt(d: Windows, key: string, reset: int) {
    key in d.table ==> d.table[key].resetAt == reset
  }

  lemma {:induction false} UntouchedUntil(rules: string -> Rule, calls: seq<Call>, i: nat, j: nat, reset: int)
    requires i < j <= |calls| && forall m :: i < m < j ==> calls[m].key != calls[i].key
    requires !Opens(Run(rules, calls[..i]), calls[i].key, calls[i].now)
    requires ResetsAt(Run(rules, calls[..i]), calls[i].key, reset)
    ensures ResetsAt(Run(rules, calls[..j]), calls[i].key, reset)
    decreases j
  {
    TableIsBounded(rules, calls[..j - 1]);
    if i < j - 1 {
      UntouchedUntil(rules, calls, i, j - 1, reset);
    }
    RunStep(rules, calls, j - 1);
    StepKeepsReset(Run(rules, calls[..j - 1]), calls[j - 1], rules, calls[i].key, reset);
  }

  lemma RunStep(rules: string -> Rule, calls: seq<Call>, n: nat)
    requires n < |calls|
    ensures Run(rules, calls[..n + 1]) == After(Run(rules, calls[..n]), calls[n].key, rules(calls[n].key), calls[n].now)
  {
    assert calls[..n + 1][..n] == calls[..n];
  }

  /** A hit on another key, or one that only counts, leaves the time a window resets. */
  lemma StepKeepsReset(d: Windows, call: Call, rules: string -> Rule, key: string, reset: int)
    requires d.Valid() && ResetsAt(d, key, reset) && (call.key == key ==> !Opens(d, key, call.now))
    ensures ResetsAt(After(d, call.key, rules(call.key), call.now), key, reset)
  {
    if call.key != key {
      OthersAreKept(d, call.key, rules(call.key), call.now, key);
    }
  }

  lemma OthersAreKept(d: Windows, key: string, rule: Rule, now: int, other: string)
    requires d.Valid() && key != other
    ensures var after := After(d, key, rule, now);
            other in after.table ==> other in d.table && after.table[other] == d.table[other]
  {
    RoomKeeps(d, key, now, other);
  }
}
