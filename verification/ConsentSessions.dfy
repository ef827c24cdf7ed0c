/** Consent sessions: a token that may record a bounded number of decisions. */
module ConsentSessions {
  // A request resolves the session, charges it by compare-and-increment, and only then writes;
  // requests interleave.

  import opened Text

  /** A row's id is its position. A purged row stays behind, marked, so that it can be spoken of. */
  datatype Session = Session(siteId: string, principalId: string, tokenHash: string, count: nat, max: nat,
                             expiresAt: int, revoked: bool, purged: bool)

  datatype Reason = InvalidSession | SessionExpired | SessionExhausted | PrincipalMismatch

  /** `count` is the number of decisions the request read when it resolved the session. */
  datatype Pc = Presented | Holding(session: nat, count: nat) | Refused(reason: Reason)
              | Charged(session: nat, count: nat, written: bool)

  datatype Request = Request(siteId: string, token: string, principalId: string, pc: Pc)

  /** A written decision: on whose behalf, and by which request. */
  datatype Decision = Decision(siteId: string, principalId: string, request: nat)

  datatype State = State(sessions: seq<Session>, requests: map<nat, Request>, log: seq<Decision>, clock: int)

  datatype Action =
    | Tick(to: int) | Open(row: Session) | Revoke(session: nat) | Purge(before: int)
    | Begin(id: nat, request: Request) | Advance(id: nat)

  const PREFIX := "cs_"

  predicate TokenShaped(token: string) {
    |token| > |PREFIX| && token[..|PREFIX|] == PREFIX
  }

  /** The row under the unique token digest. */
  function Find(sessions: seq<Session>, tokenHash: string): Option<nat> {
    if sessions == [] then None
    else
      var last := sessions[|sessions| - 1];
      if !last.purged && last.tokenHash == tokenHash then Some(|sessions| - 1) else Find(sessions[..|sessions| - 1], tokenHash)
  }

  /** Which session a token names on this site now, or why it names none. */
  function Resolution(digest: string -> string, sessions: seq<Session>, site: string, token: string, now: int): Pc {
    if !TokenShaped(token) then Refused(InvalidSession)
    else
      var k := Find(sessions, digest(token));
      if k.None? || k.value >= |sessions| then Refused(InvalidSession)
      else
        var row := sessions[k.value];
        if row.siteId != site || row.revoked then Refused(InvalidSession)
        else if row.expiresAt <= now then Refused(SessionExpired)
        else if row.count >= row.max then Refused(SessionExhausted)
        else Holding(k.value, row.count)
  }

  /** The conditional update: it matches the row only at the count that was read. */
  predicate Chargeable(sessions: seq<Session>, k: nat, expected: nat) {
    k < |sessions| && !sessions[k].purged && !sessions[k].revoked && sessions[k].count == expected
  }

  function Step(digest: string -> string, s: State, a: Action): State {
    match a
    case Tick(to) => if to < s.clock then s else s.(clock := to)
    case Open(row) =>
      if row.count != 0 || row.revoked || row.purged || Find(s.sessions, row.tokenHash).Some? then s
      else s.(sessions := s.sessions + [row])
    case Revoke(k) => if k >= |s.sessions| then s else s.(sessions := s.sessions[k := s.sessions[k].(revoked := true)])
    case Purge(before) => s.(sessions := Purged(s.sessions, before))
    case Begin(id, request) =>
      if id in s.requests || !request.pc.Presented? then s else s.(requests := s.requests[id := request])
    case Advance(id) => if id in s.requests then NextStep(digest, s, id, s.requests[id]) else s
  }

  function Purged(sessions: seq<Session>, before: int): seq<Session> {
    seq(|sessions|, i requires 0 <= i < |sessions| =>
      if sessions[i].expiresAt < before then sessions[i].(purged := true) else sessions[i])
  }

  function NextStep(digest: string -> string, s: State, id: nat, r: Request): State {
    match r.pc
    case Presented => s.(requests := s.requests[id := r.(pc := Resolution(digest, s.sessions, r.siteId, r.token, s.clock))])
    case Holding(k, n) =>
      if k >= |s.sessions| || s.sessions[k].principalId != r.principalId
      then s.(requests := s.requests[id := r.(pc := Refused(PrincipalMismatch))])
      else if !Chargeable(s.sessions, k, n) then s.(requests := s.requests[id := r.(pc := Refused(SessionExhausted))])
      else s.(sessions := s.sessions[k := s.sessions[k].(count := n + 1)], requests := s.requests[id := r.(pc := Charged(k, n, false))])
    case Charged(k, n, false) =>
      s.(log := s.log + [Decision(r.siteId, r.principalId, id)], requests := s.requests[id := r.(pc := Charged(k, n, true))])
    case _ => s
  }

  function Run(digest: string -> string, s: State, actions: seq<Action>): State {
    if actions == [] then s else Step(digest, Run(digest, s, actions[..|actions| - 1]), actions[|actions| - 1])
  }

  predicate Initial(s: State) {
    s.sessions == [] && s.requests == map[] && s.log == []
  }

  // ---- The invariant --------------------------------------------------------

  predicate ChargedAt(s: State, id: nat, k: nat, n: nat) {
    id in s.requests && s.requests[id].pc.Charged? && s.requests[id].pc.session == k && s.requests[id].pc.count == n
  }

  ghost predicate HasCharger(s: State, k: nat, n: nat) {
    exists id :: ChargedAt(s, id, k, n)
  }

  predicate RequestOk(s: State, r: Request) {
    match r.pc
    case Holding(k, n) => k < |s.sessions| && n < s.sessions[k].max && s.sessions[k].siteId == r.siteId && n <= s.sessions[k].count
    case Charged(k, n, _) =>
      k < |s.sessions| && n < s.sessions[k].count && s.sessions[k].siteId == r.siteId && s.sessions[k].principalId == r.principalId
    case _ => true
  }

  predicate LoggedBy(s: State, e: Decision) {
    && e.request in s.requests && s.requests[e.request].pc.Charged? && s.requests[e.request].pc.written
    && e.siteId == s.requests[e.request].siteId && e.principalId == s.requests[e.request].principalId
  }

  ghost predicate Inv(s: State) {
    && (forall k :: 0 <= k < |s.sessions| ==> s.sessions[k].count <= s.sessions[k].max)
    && (forall id :: id in s.requests ==> RequestOk(s, s.requests[id]))
    && (forall k: nat, n: nat :: k < |s.sessions| && n < s.sessions[k].count ==> HasCharger(s, k, n))
    && (forall c: nat, d: nat, k: nat, n: nat :: ChargedAt(s, c, k, n) && ChargedAt(s, d, k, n) ==> c == d)
    && (forall i :: 0 <= i < |s.log| ==> LoggedBy(s, s.log[i]))
    && (forall i, j :: 0 <= i < j < |s.log| ==> s.log[i].request != s.log[j].request)
  }

  lemma {:induction false} FindFinds(sessions: seq<Session>, tokenHash: string)
    ensures Find(sessions, tokenHash).Some? ==>
              var k := Find(sessions, tokenHash).value; k < |sessions| && !sessions[k].purged && sessions[k].tokenHash == tokenHash
    ensures Find(sessions, tokenHash).None? ==>
              forall k :: 0 <= k < |sessions| ==> sessions[k].purged || sessions[k].tokenHash != tokenHash
  {
    if sessions != [] {
      FindFinds(sessions[..|sessions| - 1], tokenHash);
    }
  }

  // ---- Steps keep it --------------------------------------------------------

  /** The environment's moves: nobody's count changes. */
  predicate SameCounts(s: State, t: State) {
    && |s.sessions| <= |t.sessions|
    && (forall k :: 0 <= k < |s.sessions| ==>
          t.sessions[k] == s.sessions[k].(revoked := t.sessions[k].revoked, purged := t.sessions[k].purged))
    && (forall k :: |s.sessions| <= k < |t.sessions| ==> t.sessions[k].count == 0)
  }

  lemma EnvironmentKeepsInv(s: State, t: State)
    requires Inv(s) && SameCounts(s, t) && t.log == s.log
    requires forall id :: id in s.requests ==> id in t.requests && t.requests[id] == s.requests[id]
    requires forall id :: id in t.requests && id !in s.requests ==> t.requests[id].pc.Presented?
    ensures Inv(t)
  {
    forall id | id in t.requests ensures RequestOk(t, t.requests[id]) {
      if id in s.requests { assert RequestOk(s, s.requests[id]); }
    }
    forall k: nat, n: nat | k < |t.sessions| && n < t.sessions[k].count ensures HasCharger(t, k, n) {
      assert HasCharger(s, k, n);
      var id :| ChargedAt(s, id, k, n);
      assert ChargedAt(t, id, k, n);
    }
    forall c: nat, d: nat, k: nat, n: nat | ChargedAt(t, c, k, n) && ChargedAt(t, d, k, n) ensures c == d {
      assert ChargedAt(s, c, k, n) && ChargedAt(s, d, k, n);
    }
    forall i | 0 <= i < |t.log| ensures LoggedBy(t, t.log[i]) {
      assert LoggedBy(s, s.log[i]);
    }
  }

  /** Resolving, being refused, and writing: no session changes. */
  lemma OwnMoveKeepsInv(s: State, id: nat, pc: Pc, t: State)
    requires Inv(s) && id in s.requests && t.sessions == s.sessions
    requires t.requests == s.requests[id := s.requests[id].(pc := pc)]
    requires RequestOk(t, t.requests[id])
    requires !s.requests[id].pc.Charged? ==> !pc.Charged? && t.log == s.log
    requires s.requests[id].pc.Charged? ==>
               && s.requests[id].pc.written == false && pc == s.requests[id].pc.(written := true)
               && t.log == s.log + [Decision(s.requests[id].siteId, s.requests[id].principalId, id)]
    ensures Inv(t)
  {
    forall c | c in t.requests ensures RequestOk(t, t.requests[c]) {
      if c != id { assert RequestOk(s, s.requests[c]); }
    }
    forall c: nat, k: nat, n: nat ensures ChargedAt(t, c, k, n) <==> ChargedAt(s, c, k, n) {
    }
    forall k: nat, n: nat | k < |t.sessions| && n < t.sessions[k].count ensures HasCharger(t, k, n) {
      assert HasCharger(s, k, n);
      var c :| ChargedAt(s, c, k, n);
      assert ChargedAt(t, c, k, n);
    }
    forall i | 0 <= i < |t.log| ensures LoggedBy(t, t.log[i]) {
      if i < |s.log| { assert LoggedBy(s, s.log[i]); }
    }
    forall i, j | 0 <= i < j < |t.log| ensures t.log[i].request != t.log[j].request {
      if j == |s.log| { assert LoggedBy(s, s.log[i]); }
    }
  }

  /** A charge takes the next number, which nobody holds yet. */
  lemma ChargeKeepsInv(s: State, id: nat, t: State)
    requires Inv(s) && id in s.requests && s.requests[id].pc.Holding?
    requires var r := s.requests[id]; var k, n := r.pc.session, r.pc.count;
             && Chargeable(s.sessions, k, n) && s.sessions[k].principalId == r.principalId
             && t == s.(sessions := s.sessions[k := s.sessions[k].(count := n + 1)],
                        requests := s.requests[id := r.(pc := Charged(k, n, false))])
    ensures Inv(t)
  {
    var r := s.requests[id];
    var k0, n0 := r.pc.session, r.pc.count;
    assert RequestOk(s, r);
    forall c | c in t.requests ensures RequestOk(t, t.requests[c]) {
      if c != id { assert RequestOk(s, s.requests[c]); }
    }
    forall k: nat, n: nat | k < |t.sessions| && n < t.sessions[k].count ensures HasCharger(t, k, n) {
      if k == k0 && n == n0 {
        assert ChargedAt(t, id, k, n);
      } else {
        assert HasCharger(s, k, n);
        var c :| ChargedAt(s, c, k, n);
        assert ChargedAt(t, c, k, n);
      }
    }
    forall c: nat | c in s.requests ensures !ChargedAt(s, c, k0, n0) {
      assert RequestOk(s, s.requests[c]);
    }
    forall c: nat, d: nat, k: nat, n: nat | ChargedAt(t, c, k, n) && ChargedAt(t, d, k, n) ensures c == d {
      assert c == id || ChargedAt(s, c, k, n);
      assert d == id || ChargedAt(s, d, k, n);
    }
    forall i | 0 <= i < |t.log| ensures LoggedBy(t, t.log[i]) {
      assert LoggedBy(s, s.log[i]);
    }
  }

  lemma StepKeepsInv(digest: string -> string, s: State, a: Action)
    requires Inv(s)
    ensures Inv(Step(digest, s, a))
  {
    if a.Advance? && a.id in s.requests {
      NextKeepsInv(digest, s, a.id, s.requests[a.id]);
    } else {
      EnvironmentKeepsInv(s, Step(digest, s, a));
    }
  }

  lemma NextKeepsInv(digest: string -> string, s: State, id: nat, r: Request)
    requires Inv(s) && id in s.requests && r == s.requests[id]
    ensures Inv(NextStep(digest, s, id, r))
  {
    var t := NextStep(digest, s, id, r);
    assert RequestOk(s, r);
    match r.pc
    case Presented =>
      ResolutionIsOk(digest, s, r);
      OwnMoveKeepsInv(s, id, t.requests[id].pc, t);
    case Holding(k, n) =>
      if s.sessions[k].principalId == r.principalId && Chargeable(s.sessions, k, n) {
        ChargeKeepsInv(s, id, t);
      } else {
        OwnMoveKeepsInv(s, id, t.requests[id].pc, t);
      }
    case Charged(k, n, written) =>
      if !written { OwnMoveKeepsInv(s, id, t.requests[id].pc, t); }
    case Refused(_) =>
  }

  lemma ResolutionIsOk(digest: string -> string, s: State, r: Request)
    requires r.pc.Presented?
    ensures RequestOk(s, r.(pc := Resolution(digest, s.sessions, r.siteId, r.token, s.clock)))
    ensures !Resolution(digest, s.sessions, r.siteId, r.token, s.clock).Charged?
  {
    FindFinds(s.sessions, digest(r.token));
  }

  lemma {:induction false} RunKeepsInv(digest: string -> string, s: State, actions: seq<Action>)
    requires Inv(s)
    ensures Inv(Run(digest, s, actions))
    decreases |actions|
  {
    if actions != [] {
      RunKeepsInv(digest, s, actions[..|actions| - 1]);
      StepKeepsInv(digest, Run(digest, s, actions[..|actions| - 1]), actions[|actions| - 1]);
    }
  }

  // ---- What every interleaving keeps ----------------------------------------

  function ChargesOn(s: State, k: nat): set<nat> {
    set id | id in s.requests && s.requests[id].pc.Charged? && s.requests[id].pc.session == k
  }

  lemma {:induction false} ChargesUpTo(s: State, k: nat, n: nat) returns (ids: set<nat>)
    requires Inv(s) && k < |s.sessions| && n <= s.sessions[k].count
    ensures |ids| == n && forall id :: id in ids <==> id in ChargesOn(s, k) && s.requests[id].pc.count < n
  {
    if n == 0 {
      ids := {};
    } else {
      ids := ChargesUpTo(s, k, n - 1);
      assert HasCharger(s, k, n - 1);
      var c :| ChargedAt(s, c, k, n - 1);
      forall id: nat | id in ChargesOn(s, k) && s.requests[id].pc.count == n - 1 ensures id == c {
        assert ChargedAt(s, id, k, n - 1);
      }
      ids := ids + {c};
    }
  }

  /** Successful charges on a session are exactly as many as its count, which never passes its cap. */
  lemma ChargesAreCountedAndCapped(digest: string -> string, s0: State, actions: seq<Action>, s: State, k: nat)
    requires Initial(s0) && s == Run(digest, s0, actions) && k < |s.sessions|
    ensures |ChargesOn(s, k)| == s.sessions[k].count <= s.sessions[k].max
  {
    RunKeepsInv(digest, s0, actions);
    var ids := ChargesUpTo(s, k, s.sessions[k].count);
    forall id | id in ChargesOn(s, k) ensures id in ids {
      assert RequestOk(s, s.requests[id]);
    }
    assert ids == ChargesOn(s, k);
  }

  /** Of all requests that read the same count of one session, at most one is charged. */
  lemma SameReadChargedOnce(digest: string -> string, s0: State, actions: seq<Action>, s: State, c: nat, d: nat)
    requires Initial(s0) && s == Run(digest, s0, actions)
    requires c in s.requests && d in s.requests && s.requests[c].pc.Charged? && s.requests[d].pc.Charged?
    requires s.requests[c].pc.session == s.requests[d].pc.session && s.requests[c].pc.count == s.requests[d].pc.count
    ensures c == d
  {
    RunKeepsInv(digest, s0, actions);
    assert ChargedAt(s, c, s.requests[c].pc.session, s.requests[c].pc.count);
    assert ChargedAt(s, d, s.requests[c].pc.session, s.requests[c].pc.count);
  }

  function WrittenUnder(s: State, k: nat): set<nat> {
    set i: nat | i < |s.log| && s.log[i].request in s.requests
                 && s.requests[s.log[i].request].pc.Charged? && s.requests[s.log[i].request].pc.session == k
  }

  predicate WrittenUnderSome(s: State, i: nat) {
    exists j: nat :: j < |s.sessions| && i in WrittenUnder(s, j)
  }

  /** A session never puts more decisions in the log than its cap, and only its own principal's, on its own site. */
  lemma LogNeverExceedsTheCap(digest: string -> string, s0: State, actions: seq<Action>, s: State, k: nat)
    requires Initial(s0) && s == Run(digest, s0, actions) && k < |s.sessions|
    ensures |WrittenUnder(s, k)| <= s.sessions[k].max
    ensures forall i :: i in WrittenUnder(s, k) ==> s.log[i].siteId == s.sessions[k].siteId && s.log[i].principalId == s.sessions[k].principalId
    ensures forall i: nat :: i < |s.log| ==> WrittenUnderSome(s, i)
  {
    RunKeepsInv(digest, s0, actions);
    ChargesAreCountedAndCapped(digest, s0, actions, s, k);
    NoMoreThanWriters(s.log, WrittenUnder(s, k), ChargesOn(s, k));
    forall i | i in WrittenUnder(s, k) ensures s.log[i].siteId == s.sessions[k].siteId && s.log[i].principalId == s.sessions[k].principalId {
      assert LoggedBy(s, s.log[i]) && RequestOk(s, s.requests[s.log[i].request]);
    }
    forall i: nat | i < |s.log| ensures WrittenUnderSome(s, i) {
      assert LoggedBy(s, s.log[i]) && RequestOk(s, s.requests[s.log[i].request]);
      assert i in WrittenUnder(s, s.requests[s.log[i].request].pc.session);
    }
  }

  /** Entries written by different requests are no more than the requests. */
  lemma {:induction false} NoMoreThanWriters(log: seq<Decision>, entries: set<nat>, writers: set<nat>)
    requires forall i, j :: 0 <= i < j < |log| ==> log[i].request != log[j].request
    requires forall i :: i in entries ==> i < |log| && log[i].request in writers
    ensures |entries| <= |writers|
    decreases |entries|
  {
    if entries != {} {
      var i :| i in entries;
      NoMoreThanWriters(log, entries - {i}, writers - {log[i].request});
    }
  }

  // ---- One request as the code runs it --------------------------------------

  class SessionTable {
    var rows: seq<Session>

    constructor (initial: seq<Session>)
      ensures rows == initial
    {
      rows := initial;
    }

    /** `resolveConsentSession`: reads only, and refuses everything that is not live on this site. */
    method Resolve(digest: string -> string, site: string, token: string, now: int) returns (r: Pc)
      ensures r == Resolution(digest, rows, site, token, now)
      ensures r.Holding? ==>
                && r.session < |rows| && TokenShaped(token) && rows[r.session].tokenHash == digest(token)
                && rows[r.session].siteId == site && !rows[r.session].revoked && !rows[r.session].purged
                && now < rows[r.session].expiresAt && r.count == rows[r.session].count < rows[r.session].max
    {
      if !TokenShaped(token) {
        return Refused(InvalidSession);
      }
      FindFinds(rows, digest(token));
      var k := |rows|;
      assert rows[..k] == rows;
      while k > 0
        invariant 0 <= k <= |rows|
        invariant Find(rows, digest(token)) == Find(rows[..k], digest(token))
      {
        assert rows[..k][..k - 1] == rows[..k - 1];
        if !rows[k - 1].purged && rows[k - 1].tokenHash == digest(token) {
          var row := rows[k - 1];
          if row.siteId != site || row.revoked {
            return Refused(InvalidSession);
          }
          if row.expiresAt <= now {
            return Refused(SessionExpired);
          }
          if row.count >= row.max {
            return Refused(SessionExhausted);
          }
          return Holding(k - 1, row.count);
        }
        k := k - 1;
      }
      r := Refused(InvalidSession);
    }

    /** `consumeConsentSessionDecision`: one more decision, and only at the count that was read. */
    method Consume(k: nat, expected: nat) returns (charged: bool)
      modifies this
      ensures charged == Chargeable(old(rows), k, expected)
      ensures |rows| == |old(rows)|
      ensures forall i :: 0 <= i < |rows| ==> rows[i] == if charged && i == k then old(rows)[i].(count := expected + 1) else old(rows)[i]
    {
      charged := Chargeable(rows, k, expected);
      if charged {
        rows := rows[k := rows[k].(count := rows[k].count + 1)];
      }
    }
  }
}
