/** Approving a consent policy while other approvals are under way. */
module PolicyVersions {
  // Each approval is a transaction of three steps (read the highest version, supersede the approved
  // one, insert the next), and transactions interleave.


  datatype Status = Approved | Superseded

  datatype Version = Version(siteId: string, version: nat, status: Status, content: string)

  function Max(a: nat, b: nat): nat {
    if a >= b then a else b
  }

  /** The site's highest version number, 0 before the first. */
  function Highest(rows: seq<Version>, site: string): nat {
    if rows == [] then 0
    else
      var last, before := rows[|rows| - 1], Highest(rows[..|rows| - 1], site);
      if last.siteId == site then Max(before, last.version) else before
  }

  /** The rows an update of "approved here" matches, by position. */
  function ApprovedRows(rows: seq<Version>, site: string): set<nat> {
    set i: nat | i < |rows| && rows[i].siteId == site && rows[i].status == Approved
  }

  function Superseding(rows: seq<Version>, ids: set<nat>): seq<Version> {
    seq(|rows|, i requires 0 <= i < |rows| => if i in ids then rows[i].(status := Superseded) else rows[i])
  }

  predicate VersionTaken(rows: seq<Version>, site: string, version: nat) {
    exists i :: 0 <= i < |rows| && rows[i].siteId == site && rows[i].version == version
  }

  /** The two unique indexes: (site, version), and one approved row per site. */
  predicate Accepts(rows: seq<Version>, row: Version) {
    !VersionTaken(rows, row.siteId, row.version) && (row.status == Approved ==> ApprovedRows(rows, row.siteId) == {})
  }

  // ---- Transactions ---------------------------------------------------------

  datatype Pc = Begun | HasHighest(highest: nat) | HasSuperseded(highest: nat, ids: set<nat>)
              | Committed(index: nat) | VersionConflict | SiteNotFound

  datatype Approval = Approval(organisationId: string, siteId: string, content: string, pc: Pc)

  datatype State = State(rows: seq<Version>, approvals: map<nat, Approval>)

  datatype Action = Begin(id: nat, approval: Approval) | Advance(id: nat)

  function Step(sites: map<string, string>, s: State, a: Action): State {
    match a
    case Begin(id, approval) =>
      if id in s.approvals || !approval.pc.Begun? then s
      else if approval.siteId !in sites || sites[approval.siteId] != approval.organisationId
      then s.(approvals := s.approvals[id := approval.(pc := SiteNotFound)])
      else s.(approvals := s.approvals[id := approval])
    case Advance(id) =>
      if id !in s.approvals then s
      else
        var (rows, pc) := Next(s.rows, s.approvals[id]);
        State(rows, s.approvals[id := s.approvals[id].(pc := pc)])
  }

  /** What a transaction changes is seen by others only once it commits; a refused insert undoes it all. */
  function Next(rows: seq<Version>, a: Approval): (seq<Version>, Pc) {
    match a.pc
    case Begun => (rows, HasHighest(Highest(rows, a.siteId)))
    case HasHighest(h) => (rows, HasSuperseded(h, ApprovedRows(rows, a.siteId)))
    case HasSuperseded(h, ids) =>
      var row := Version(a.siteId, h + 1, Approved, a.content);
      if Accepts(Superseding(rows, ids), row) then (Superseding(rows, ids) + [row], Committed(|rows|)) else (rows, VersionConflict)
    case _ => (rows, a.pc)
  }

  function Run(sites: map<string, string>, s: State, actions: seq<Action>): State {
    if actions == [] then s else Step(sites, Run(sites, s, actions[..|actions| - 1]), actions[|actions| - 1])
  }

  // ---- The invariant --------------------------------------------------------

  predicate DistinctVersions(rows: seq<Version>) {
    forall i, j :: 0 <= i < |rows| && 0 <= j < |rows| && rows[i].siteId == rows[j].siteId && rows[i].version == rows[j].version ==> i == j
  }

  predicate Contiguous(rows: seq<Version>) {
    forall site: string, v :: site in Sites(rows) && 1 <= v <= Highest(rows, site) ==> VersionTaken(rows, site, v)
  }

  function Sites(rows: seq<Version>): set<string> {
    set r | r in rows :: r.siteId
  }

  /** Approved means exactly: the highest version of its site. */
  predicate ApprovedIsHighest(rows: seq<Version>) {
    forall i :: 0 <= i < |rows| ==> (rows[i].status == Approved <==> rows[i].version == Highest(rows, rows[i].siteId))
  }

  predicate Ok(rows: seq<Version>) {
    && DistinctVersions(rows) && Contiguous(rows) && ApprovedIsHighest(rows)
    && forall i :: 0 <= i < |rows| ==> rows[i].version >= 1
  }

  /** Rows stay, in place, with everything but the status; a superseded row stays superseded. */
  predicate Advances(a: seq<Version>, b: seq<Version>) {
    && |a| <= |b|
    && forall i :: 0 <= i < |a| ==> b[i] == a[i].(status := b[i].status) && (a[i].status == Superseded ==> b[i].status == Superseded)
  }

  predicate ApprovalOk(rows: seq<Version>, a: Approval) {
    match a.pc
    case HasHighest(h) => h <= Highest(rows, a.siteId)
    case HasSuperseded(h, ids) =>
      h <= Highest(rows, a.siteId) && (h == Highest(rows, a.siteId) ==> ids == ApprovedRows(rows, a.siteId))
    case Committed(k) => k < |rows| && rows[k].siteId == a.siteId && rows[k].content == a.content
    case _ => true
  }

  predicate Wrote(approvals: map<nat, Approval>, id: nat, k: nat) {
    id in approvals && approvals[id].pc == Committed(k)
  }

  ghost predicate HasAuthor(approvals: map<nat, Approval>, k: nat) {
    exists id :: Wrote(approvals, id, k)
  }

  /** The first `n` rows have one committed approval each, and no approval claims a later row. */
  ghost predicate Authorship(approvals: map<nat, Approval>, n: nat) {
    && (forall k: nat :: k < n ==> HasAuthor(approvals, k))
    && (forall c: nat, d: nat, k: nat :: Wrote(approvals, c, k) && Wrote(approvals, d, k) ==> c == d)
    && (forall c: nat, k: nat :: Wrote(approvals, c, k) ==> k < n)
  }

  ghost predicate Inv(s: State) {
    && Ok(s.rows)
    && (forall id :: id in s.approvals ==> ApprovalOk(s.rows, s.approvals[id]))
    && Authorship(s.approvals, |s.rows|)
  }

  // ---- Highest --------------------------------------------------------------

  lemma {:induction false} HighestBounds(rows: seq<Version>, site: string)
    ensures forall i :: 0 <= i < |rows| && rows[i].siteId == site ==> rows[i].version <= Highest(rows, site)
    ensures Highest(rows, site) > 0 ==> VersionTaken(rows, site, Highest(rows, site))
  {
    if rows != [] {
      var before := rows[..|rows| - 1];
      HighestBounds(before, site);
      if Highest(rows, site) > 0 && Highest(rows, site) == Highest(before, site) {
        var i :| 0 <= i < |before| && before[i].siteId == site && before[i].version == Highest(before, site);
        assert rows[i] == before[i];
      }
    }
  }

  /** Statuses do not enter into it. */
  lemma {:induction false} HighestIgnoresStatus(a: seq<Version>, b: seq<Version>, site: string)
    requires |a| == |b| && forall i :: 0 <= i < |a| ==> b[i] == a[i].(status := b[i].status)
    ensures Highest(a, site) == Highest(b, site)
  {
    if a != [] {
      HighestIgnoresStatus(a[..|a| - 1], b[..|b| - 1], site);
    }
  }

  lemma HighestGrows(a: seq<Version>, b: seq<Version>, site: string)
    requires Advances(a, b)
    ensures Highest(a, site) <= Highest(b, site)
  {
    HighestBounds(a, site);
    HighestBounds(b, site);
    if Highest(a, site) > 0 {
      var i :| 0 <= i < |a| && a[i].siteId == site && a[i].version == Highest(a, site);
      assert b[i].siteId == site && b[i].version == a[i].version;
    }
  }

  /** If no approval of the site came between, the very same row is the approved one. */
  lemma SameHighestSameApproved(a: seq<Version>, b: seq<Version>, site: string)
    requires Ok(a) && Ok(b) && Advances(a, b) && Highest(a, site) == Highest(b, site)
    ensures ApprovedRows(a, site) == ApprovedRows(b, site)
  {
    HighestBounds(a, site);
    forall i: nat | i in ApprovedRows(b, site) ensures i < |a| {
      var j :| 0 <= j < |a| && a[j].siteId == site && a[j].version == Highest(a, site);
      assert b[j].siteId == site && b[j].version == b[i].version;
    }
    forall i: nat ensures i in ApprovedRows(a, site) <==> i in ApprovedRows(b, site) {
      if i < |a| {
        assert b[i].siteId == a[i].siteId && b[i].version == a[i].version;
      }
    }
  }

  // ---- The commit -----------------------------------------------------------

  lemma SupersedingLooks(rows: seq<Version>, ids: set<nat>)
    ensures Advances(rows, Superseding(rows, ids))
    ensures forall site: string :: Highest(Superseding(rows, ids), site) == Highest(rows, site)
    ensures forall site: string, v: nat :: VersionTaken(Superseding(rows, ids), site, v) <==> VersionTaken(rows, site, v)
  {
    var after := Superseding(rows, ids);
    forall site: string ensures Highest(after, site) == Highest(rows, site) {
      HighestIgnoresStatus(rows, after, site);
    }
    forall site: string, v: nat ensures VersionTaken(after, site, v) <==> VersionTaken(rows, site, v) {
      if VersionTaken(rows, site, v) {
        var i :| 0 <= i < |rows| && rows[i].siteId == site && rows[i].version == v;
        assert after[i].siteId == site && after[i].version == v;
      }
    }
  }

  /** An approval commits exactly when no other approval of its site committed since it read. */
  lemma CommitsIff(rows: seq<Version>, a: Approval)
    requires Ok(rows) && ApprovalOk(rows, a) && a.pc.HasSuperseded?
    ensures Next(rows, a).1.Committed? <==> Highest(rows, a.siteId) == a.pc.highest
    ensures !Next(rows, a).1.Committed? ==> Next(rows, a) == (rows, VersionConflict)
  {
    var h := a.pc.highest;
    SupersedingLooks(rows, a.pc.ids);
    HighestBounds(rows, a.siteId);
    if h < Highest(rows, a.siteId) {
      var i :| 0 <= i < |rows| && rows[i].siteId == a.siteId && rows[i].version == Highest(rows, a.siteId);
      assert rows[i] in rows;
      assert VersionTaken(rows, a.siteId, h + 1);
    } else {
      assert !VersionTaken(rows, a.siteId, h + 1);
      assert ApprovedRows(Superseding(rows, a.pc.ids), a.siteId) == {};
    }
  }

  /** The table after a commit. */
  function Approving(rows: seq<Version>, site: string, content: string): seq<Version> {
    Superseding(rows, ApprovedRows(rows, site)) + [Version(site, Highest(rows, site) + 1, Approved, content)]
  }

  lemma ApprovingRaises(rows: seq<Version>, site: string, content: string)
    ensures forall other: string :: Highest(Approving(rows, site, content), other)
                                    == if other == site then Highest(rows, site) + 1 else Highest(rows, other)
    ensures Advances(rows, Approving(rows, site, content))
  {
    var after := Approving(rows, site, content);
    SupersedingLooks(rows, ApprovedRows(rows, site));
    assert after[..|after| - 1] == Superseding(rows, ApprovedRows(rows, site));
  }

  lemma ApprovingStaysDistinct(rows: seq<Version>, site: string, content: string)
    requires DistinctVersions(rows)
    ensures DistinctVersions(Approving(rows, site, content))
  {
    HighestBounds(rows, site);
    var after := Approving(rows, site, content);
    forall i | 0 <= i < |rows| ensures after[i].siteId == rows[i].siteId && after[i].version == rows[i].version {
    }
  }

  lemma ApprovingApprovesHighest(rows: seq<Version>, site: string, content: string)
    requires ApprovedIsHighest(rows)
    ensures ApprovedIsHighest(Approving(rows, site, content))
  {
    ApprovingRaises(rows, site, content);
    var after := Approving(rows, site, content);
    forall i | 0 <= i < |after| ensures after[i].status == Approved <==> after[i].version == Highest(after, after[i].siteId) {
      if i < |rows| {
        HighestBounds(rows, rows[i].siteId);
      }
    }
  }

  lemma CommitKeepsOk(rows: seq<Version>, site: string, content: string)
    requires Ok(rows)
    ensures Ok(Approving(rows, site, content)) && Advances(rows, Approving(rows, site, content))
    ensures Highest(Approving(rows, site, content), site) == Highest(rows, site) + 1
  {
    var after := Approving(rows, site, content);
    ApprovingRaises(rows, site, content);
    ApprovingStaysDistinct(rows, site, content);
    ApprovingApprovesHighest(rows, site, content);
    forall other: string, v | other in Sites(after) && 1 <= v <= Highest(after, other) ensures VersionTaken(after, other, v) {
      AfterTaken(rows, Superseding(rows, ApprovedRows(rows, site)), after[|rows|], other, v);
    }
  }

  lemma AfterTaken(rows: seq<Version>, kept: seq<Version>, row: Version, site: string, v: nat)
    requires Ok(rows) && |kept| == |rows| && (forall i :: 0 <= i < |rows| ==> kept[i] == rows[i].(status := kept[i].status))
    requires row.version == Highest(rows, row.siteId) + 1
    requires 1 <= v <= Highest(kept + [row], site)
    ensures VersionTaken(kept + [row], site, v)
  {
    var after := kept + [row];
    assert after[..|after| - 1] == kept;
    HighestIgnoresStatus(rows, kept, site);
    if v <= Highest(rows, site) {
      HighestBounds(rows, site);
      var k :| 0 <= k < |rows| && rows[k].siteId == site && rows[k].version == Highest(rows, site);
      assert rows[k] in rows && site in Sites(rows);
      assert VersionTaken(rows, site, v);
      var i :| 0 <= i < |rows| && rows[i].siteId == site && rows[i].version == v;
      assert after[i] == kept[i];
    } else {
      assert after[|rows|] == row && row.siteId == site;
    }
  }

  lemma NextKeeps(rows: seq<Version>, a: Approval)
    requires Ok(rows) && ApprovalOk(rows, a)
    ensures Ok(Next(rows, a).0) && Advances(rows, Next(rows, a).0)
    ensures ApprovalOk(Next(rows, a).0, a.(pc := Next(rows, a).1))
    ensures |Next(rows, a).0| > |rows| <==> a.pc.HasSuperseded? && Next(rows, a).1 == Committed(|rows|)
    ensures |Next(rows, a).0| <= |rows| + 1
  {
    AdvancesReflexive(rows);
    if a.pc.HasSuperseded? {
      CommitsIff(rows, a);
      if Next(rows, a).1.Committed? {
        NextIsApproving(rows, a);
        CommitKeepsOk(rows, a.siteId, a.content);
      }
    }
  }

  lemma AdvancesReflexive(rows: seq<Version>)
    ensures Advances(rows, rows)
  {
  }

  lemma NextIsApproving(rows: seq<Version>, a: Approval)
    requires a.pc == HasSuperseded(Highest(rows, a.siteId), ApprovedRows(rows, a.siteId)) && Next(rows, a).1.Committed?
    ensures Next(rows, a) == (Approving(rows, a.siteId, a.content), Committed(|rows|))
    ensures ApprovalOk(Next(rows, a).0, a.(pc := Next(rows, a).1))
    ensures |Next(rows, a).0| == |rows| + 1
  {
  }

  lemma ApprovalOkLater(rows: seq<Version>, later: seq<Version>, a: Approval)
    requires Ok(rows) && Ok(later) && Advances(rows, later) && ApprovalOk(rows, a)
    ensures ApprovalOk(later, a)
  {
    HighestGrows(rows, later, a.siteId);
    if a.pc.HasSuperseded? && a.pc.highest == Highest(later, a.siteId) {
      SameHighestSameApproved(rows, later, a.siteId);
    }
  }

  lemma StepKeepsInv(sites: map<string, string>, s: State, a: Action)
    requires Inv(s)
    ensures Inv(Step(sites, s, a)) && Advances(s.rows, Step(sites, s, a).rows)
  {
    var t := Step(sites, s, a);
    if a.Advance? && a.id in s.approvals {
      NextKeeps(s.rows, s.approvals[a.id]);
      forall c | c in t.approvals ensures ApprovalOk(t.rows, t.approvals[c]) {
        if c != a.id {
          ApprovalOkLater(s.rows, t.rows, s.approvals[c]);
        }
      }
    }
    if a.Begin? {
      if a.id !in s.approvals && a.approval.pc.Begun? {
        OthersKeepAuthorship(s.approvals, |s.rows|, a.id, t.approvals[a.id]);
      }
    } else if a.id in s.approvals {
      AuthorshipStays(s.approvals, |s.rows|, a.id, t.approvals[a.id], |t.rows|);
    }
  }

  lemma AuthorshipStays(approvals: map<nat, Approval>, n: nat, id: nat, now: Approval, m: nat)
    requires Authorship(approvals, n) && id in approvals && n <= m <= n + 1
    requires m > n <==> approvals[id].pc.HasSuperseded? && now.pc == Committed(n)
    requires m == n ==> (if approvals[id].pc.Committed? then now.pc == approvals[id].pc else !now.pc.Committed?)
    ensures Authorship(approvals[id := now], m)
  {
    if m > n {
      CommitAddsAuthor(approvals, n, id, now);
    } else {
      OthersKeepAuthorship(approvals, n, id, now);
    }
  }

  lemma OthersKeepAuthorship(approvals: map<nat, Approval>, n: nat, id: nat, now: Approval)
    requires Authorship(approvals, n)
    requires if id in approvals && approvals[id].pc.Committed? then now.pc == approvals[id].pc else !now.pc.Committed?
    ensures Authorship(approvals[id := now], n)
  {
    var after := approvals[id := now];
    forall c: nat, k: nat ensures Wrote(after, c, k) <==> Wrote(approvals, c, k) {
    }
    forall k: nat | k < n ensures HasAuthor(after, k) {
      assert HasAuthor(approvals, k);
      var c :| Wrote(approvals, c, k);
      assert Wrote(after, c, k);
    }
  }

  lemma CommitAddsAuthor(approvals: map<nat, Approval>, n: nat, id: nat, now: Approval)
    requires Authorship(approvals, n) && now.pc == Committed(n) && id in approvals && !approvals[id].pc.Committed?
    ensures Authorship(approvals[id := now], n + 1)
  {
    var after := approvals[id := now];
    forall c: nat, k: nat ensures Wrote(after, c, k) <==> Wrote(approvals, c, k) || (c == id && k == n) {
    }
    forall k: nat | k < n + 1 ensures HasAuthor(after, k) {
      if k < n {
        assert HasAuthor(approvals, k);
        var c :| Wrote(approvals, c, k);
        assert Wrote(after, c, k);
      } else {
        assert Wrote(after, id, k);
      }
    }
  }

  lemma {:induction false} RunKeepsInv(sites: map<string, string>, s: State, actions: seq<Action>)
    requires Inv(s)
    ensures Inv(Run(sites, s, actions)) && Advances(s.rows, Run(sites, s, actions).rows)
    decreases |actions|
  {
    if actions != [] {
      RunKeepsInv(sites, s, actions[..|actions| - 1]);
      StepKeepsInv(sites, Run(sites, s, actions[..|actions| - 1]), actions[|actions| - 1]);
    }
  }

  // ---- What every interleaving keeps ----------------------------------------

  const NOTHING_YET := State([], map[])

  /**
   * A site's versions are exactly 1..n, each once; exactly the highest is approved, so there is one
   * approved version as soon as any approval has committed, and never two.
   */
  lemma VersionsAreOneToHighest(sites: map<string, string>, actions: seq<Action>, rows: seq<Version>, site: string)
    requires rows == Run(sites, NOTHING_YET, actions).rows
    ensures forall v: nat :: VersionTaken(rows, site, v) <==> 1 <= v <= Highest(rows, site)
    ensures DistinctVersions(rows)
    ensures Highest(rows, site) == 0 ==> ApprovedRows(rows, site) == {}
    ensures Highest(rows, site) > 0 ==>
              exists i :: ApprovedRows(rows, site) == {i} && i < |rows| && rows[i].version == Highest(rows, site)
  {
    RunKeepsInv(sites, NOTHING_YET, actions);
    HighestBounds(rows, site);
    if Highest(rows, site) > 0 {
      var i: nat :| i < |rows| && rows[i].siteId == site && rows[i].version == Highest(rows, site);
      assert rows[i] in rows && site in Sites(rows);
      assert ApprovedRows(rows, site) == {i};
    }
    forall v: nat ensures VersionTaken(rows, site, v) <==> 1 <= v <= Highest(rows, site) {
    }
  }

  /** Successful approvals and versions correspond one to one, whatever the losers did. */
  lemma EveryVersionHasItsApproval(sites: map<string, string>, actions: seq<Action>, s: State)
    requires s == Run(sites, NOTHING_YET, actions)
    ensures forall k: nat :: k < |s.rows| ==> HasAuthor(s.approvals, k)
    ensures forall c: nat, d: nat, k: nat :: Wrote(s.approvals, c, k) && Wrote(s.approvals, d, k) ==> c == d
    ensures forall c: nat, k: nat :: Wrote(s.approvals, c, k) ==>
              k < |s.rows| && s.rows[k].siteId == s.approvals[c].siteId && s.rows[k].content == s.approvals[c].content
  {
    RunKeepsInv(sites, NOTHING_YET, actions);
    forall c: nat, k: nat | Wrote(s.approvals, c, k)
      ensures k < |s.rows| && s.rows[k].siteId == s.approvals[c].siteId && s.rows[k].content == s.approvals[c].content
    {
      assert ApprovalOk(s.rows, s.approvals[c]);
    }
  }

  /** What was approved keeps its number and its content for ever, and superseded is final. */
  lemma ApprovedContentIsImmutable(sites: map<string, string>, first: seq<Action>, rest: seq<Action>)
    ensures Advances(Run(sites, NOTHING_YET, first).rows, Run(sites, NOTHING_YET, first + rest).rows)
  {
    RunKeepsInv(sites, NOTHING_YET, first);
    RunAppend(sites, NOTHING_YET, first, rest);
    RunKeepsInv(sites, Run(sites, NOTHING_YET, first), rest);
  }

  lemma {:induction false} RunAppend(sites: map<string, string>, s: State, first: seq<Action>, rest: seq<Action>)
    ensures Run(sites, s, first + rest) == Run(sites, Run(sites, s, first), rest)
    decreases |rest|
  {
    if rest == [] {
      assert first + rest == first;
    } else {
      assert (first + rest)[..|first + rest| - 1] == first + rest[..|rest| - 1];
      RunAppend(sites, s, first, rest[..|rest| - 1]);
    }
  }

  // ---- One approval as the code runs it -------------------------------------

  class PolicyTable {
    var rows: seq<Version>

    constructor (initial: seq<Version>)
      ensures rows == initial
    {
      rows := initial;
    }

    method SupersedeApproved(ids: set<nat>)
      modifies this
      ensures rows == Superseding(old(rows), ids)
    {
      rows := Superseding(rows, ids);
    }

    /** The unique indexes refuse, or the row is in. */
    method Create(row: Version) returns (threw: bool)
      modifies this
      ensures threw == !Accepts(old(rows), row)
      ensures rows == if threw then old(rows) else old(rows) + [row]
    {
      threw := !Accepts(rows, row);
      if !threw {
        rows := rows + [row];
      }
    }
  }

  /** The next version is in and approved; the one approved before is superseded; nothing else moved. */
  predicate ApprovedAs(before: seq<Version>, after: seq<Version>, input: Approval) {
    && |after| == |before| + 1
    && after[|before|] == Version(input.siteId, Highest(before, input.siteId) + 1, Approved, input.content)
    && forall i :: 0 <= i < |before| ==>
         after[i] == if before[i].siteId == input.siteId then before[i].(status := Superseded) else before[i]
  }

  /** What the transaction holds when it comes to insert. */
  lemma HeldAtInsert(read: seq<Version>, afterRead: seq<Version>, afterUpdate: seq<Version>, site: string)
    requires Ok(afterRead) && Ok(afterUpdate) && Advances(read, afterRead) && Advances(afterRead, afterUpdate)
    ensures Highest(read, site) <= Highest(afterUpdate, site)
    ensures Highest(read, site) == Highest(afterUpdate, site) ==> ApprovedRows(afterRead, site) == ApprovedRows(afterUpdate, site)
  {
    HighestGrows(read, afterRead, site);
    HighestGrows(afterRead, afterUpdate, site);
    if Highest(read, site) == Highest(afterUpdate, site) {
      SameHighestSameApproved(afterRead, afterUpdate, site);
    }
  }

  function NewRow(input: Approval, highest: nat): Version {
    Version(input.siteId, highest + 1, Approved, input.content)
  }

  lemma InsertAccepted(rows: seq<Version>, input: Approval, h: nat, ids: set<nat>)
    requires Ok(rows) && h <= Highest(rows, input.siteId)
    requires h == Highest(rows, input.siteId) ==> ids == ApprovedRows(rows, input.siteId)
    ensures Accepts(Superseding(rows, ids), NewRow(input, h)) <==> h == Highest(rows, input.siteId)
  {
    CommitsIff(rows, input.(pc := HasSuperseded(h, ids)));
  }

  lemma ApprovingMeans(rows: seq<Version>, input: Approval)
    requires Ok(rows)
    ensures Ok(Approving(rows, input.siteId, input.content))
    ensures ApprovedAs(rows, Approving(rows, input.siteId, input.content), input)
  {
    CommitKeepsOk(rows, input.siteId, input.content);
  }

  /**
   * `approvePolicyVersion`, with the table as others leave it after the read and after the update.
   * It approves exactly when nobody else did meanwhile; otherwise the table is as others left it.
   */
  method ApprovePolicyVersion(sites: map<string, string>, table: PolicyTable, input: Approval,
                              afterRead: seq<Version>, afterUpdate: seq<Version>) returns (r: Pc)
    requires Ok(table.rows) && Ok(afterRead) && Ok(afterUpdate)
    requires Advances(table.rows, afterRead) && Advances(afterRead, afterUpdate)
    modifies table
    ensures Ok(table.rows)
    ensures r.SiteNotFound? <==> input.siteId !in sites || sites[input.siteId] != input.organisationId
    ensures r.SiteNotFound? ==> table.rows == old(table.rows)
    ensures r.Committed? || r.VersionConflict? || r.SiteNotFound?
    ensures !r.SiteNotFound? ==> (r.Committed? <==> Highest(afterUpdate, input.siteId) == Highest(old(table.rows), input.siteId))
    ensures r.VersionConflict? ==> table.rows == afterUpdate
    ensures r.Committed? ==> ApprovedAs(afterUpdate, table.rows, input)
  {
    if input.siteId !in sites || sites[input.siteId] != input.organisationId {
      return SiteNotFound;
    }
    var highest := Highest(table.rows, input.siteId);
    var ids := ApprovedRows(afterRead, input.siteId);
    HeldAtInsert(table.rows, afterRead, afterUpdate, input.siteId);
    r := Insert(table, input, highest, ids, afterUpdate);
  }

  /** The update and the insert, rolled back together if the insert is refused. */
  method Insert(table: PolicyTable, input: Approval, highest: nat, ids: set<nat>, rows: seq<Version>) returns (r: Pc)
    requires Ok(rows) && highest <= Highest(rows, input.siteId)
    requires highest == Highest(rows, input.siteId) ==> ids == ApprovedRows(rows, input.siteId)
    modifies table
    ensures Ok(table.rows)
    ensures r.Committed? || r.VersionConflict?
    ensures r.Committed? <==> highest == Highest(rows, input.siteId)
    ensures r.VersionConflict? ==> table.rows == rows
    ensures r.Committed? ==> ApprovedAs(rows, table.rows, input)
  {
    InsertAccepted(rows, input, highest, ids);
    table.rows := rows;
    table.SupersedeApproved(ids);
    var threw := table.Create(NewRow(input, highest));
    if threw {
      table.rows := rows;
      return VersionConflict;
    }
    ApprovingMeans(rows, input);
    return Committed(|rows|);
  }
}
