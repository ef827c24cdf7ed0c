/** Consent receipts and signed, hash-linked proofs. */
module ConsentProof {
  // The canonical forms, building a proof, reassembling it from a stored row, and checking it.
  // SHA-256, ISO 8601 printing and Ed25519 are parameters. What is assumed of them is stated by
  // `Ideal` and `IdealSignatures`, and `IdealPrimitivesExist` meets both.

  import opened Text
  import opened Sequences

  datatype Primitives = Primitives(
    sha256: string -> string,
    iso: int -> string,
    publicOf: string -> string,
    sign: (string, string) -> string,
    verify: (string, string, string) -> bool)

  /** No two inputs share a digest or a printed instant, and neither output spans lines. */
  ghost predicate Ideal(p: Primitives) {
    && (forall a, b :: p.sha256(a) == p.sha256(b) ==> a == b)
    && (forall a :: p.sha256(a) != "" && '\n' !in p.sha256(a))
    && (forall s, t :: p.iso(s) == p.iso(t) ==> s == t)
    && (forall s :: '\n' !in p.iso(s))
  }

  /** Only the holder of the private key makes signatures that verify, one per message. */
  ghost predicate IdealSignatures(p: Primitives) {
    && (forall key, m, s :: p.verify(p.publicOf(key), m, s) <==> s == p.sign(key, m))
    && (forall key, m :: p.sign(key, m) != "")
    && (forall key, m, n :: p.sign(key, m) == p.sign(key, n) ==> m == n)
  }

  const PROOF_VERSION := "rift-consent-proof/2"
  const PROOF_VERSION_V1 := "rift-consent-proof/1"
  const RECEIPT_VERSION := "rift-consent-receipt/1"

  predicate Supported(version: string) {
    version == PROOF_VERSION_V1 || version == PROOF_VERSION
  }

  datatype Evidence = Evidence(
    siteId: string, principalExternalId: string, purposeCode: string, status: string,
    decidedAt: int, noticeId: Option<string>, policyVersionId: Option<string>,
    policyConfigVersion: Option<string>, jurisdictions: seq<string>, vendors: seq<string>,
    mechanism: Option<string>, source: string)

  datatype Facts = Facts(
    consentRecordId: string, siteId: string, principalExternalId: string, purposeCode: string,
    status: string, decidedAt: int, policyVersionId: Option<string>,
    policyConfigVersion: Option<string>, jurisdictions: seq<string>, receiptHash: string,
    sequence: nat, previousProofHash: Option<string>,
    experimentId: Option<string>, variantKey: Option<string>)

  // ---- Canonical forms ------------------------------------------------------

  function OrEmpty(o: Option<string>): string {
    match o case None => "" case Some(s) => s
  }

  function SortedTexts(items: seq<string>): seq<string> {
    Sort(Map(items, Trim), Leq)
  }

  function List(items: seq<string>): string {
    Join(SortedTexts(items), ',')
  }

  function EvidenceLines(p: Primitives, e: Evidence): seq<string> {
    [RECEIPT_VERSION, e.siteId, e.principalExternalId, e.purposeCode, e.status, p.iso(e.decidedAt),
     OrEmpty(e.noticeId), OrEmpty(e.policyVersionId), OrEmpty(e.policyConfigVersion),
     List(e.jurisdictions), List(e.vendors), OrEmpty(e.mechanism), e.source]
  }

  function CanonicalEvidence(p: Primitives, e: Evidence): string {
    Join(EvidenceLines(p, e), '\n')
  }

  function ProofHash(p: Primitives, e: Evidence): string {
    p.sha256(CanonicalEvidence(p, e))
  }

  function ProofLines(p: Primitives, f: Facts, version: string): seq<string> {
    var common := [
      version, f.consentRecordId, f.siteId, f.principalExternalId, f.purposeCode, f.status,
      p.iso(f.decidedAt), OrEmpty(f.policyVersionId), OrEmpty(f.policyConfigVersion),
      List(f.jurisdictions), f.receiptHash, Decimal(f.sequence), OrEmpty(f.previousProofHash)];
    if version == PROOF_VERSION_V1 then common
    else common + [OrEmpty(f.experimentId), OrEmpty(f.variantKey)]
  }

  function CanonicalProof(p: Primitives, f: Facts, version: string): string {
    Join(ProofLines(p, f, version), '\n')
  }

  function ProofDigest(p: Primitives, f: Facts, version: string): string {
    p.sha256(CanonicalProof(p, f, version))
  }

  // What the two forms bind, with null read as the empty text and lists in sorted order.

  datatype BoundEvidence = BoundEvidence(
    siteId: string, principalExternalId: string, purposeCode: string, status: string,
    decidedAt: int, noticeId: string, policyVersionId: string, policyConfigVersion: string,
    jurisdictions: string, vendors: string, mechanism: string, source: string)

  function BoundByReceipt(e: Evidence): BoundEvidence {
    BoundEvidence(e.siteId, e.principalExternalId, e.purposeCode, e.status, e.decidedAt,
                  OrEmpty(e.noticeId), OrEmpty(e.policyVersionId), OrEmpty(e.policyConfigVersion),
                  List(e.jurisdictions), List(e.vendors), OrEmpty(e.mechanism), e.source)
  }

  datatype BoundFacts = BoundFacts(
    version: string, consentRecordId: string, siteId: string, principalExternalId: string,
    purposeCode: string, status: string, decidedAt: int, policyVersionId: string,
    policyConfigVersion: string, jurisdictions: string, receiptHash: string, sequence: nat,
    previousProofHash: string, experimentId: string, variantKey: string)

  function BoundByProof(f: Facts, version: string): BoundFacts {
    var v1 := version == PROOF_VERSION_V1;
    BoundFacts(version, f.consentRecordId, f.siteId, f.principalExternalId, f.purposeCode, f.status,
               f.decidedAt, OrEmpty(f.policyVersionId), OrEmpty(f.policyConfigVersion),
               List(f.jurisdictions), f.receiptHash, f.sequence, OrEmpty(f.previousProofHash),
               if v1 then "" else OrEmpty(f.experimentId), if v1 then "" else OrEmpty(f.variantKey))
  }

  predicate OneLine(s: string) {
    '\n' !in s
  }

  predicate EvidenceOnOneLine(e: Evidence) {
    && OneLine(e.siteId) && OneLine(e.principalExternalId) && OneLine(e.purposeCode) && OneLine(e.status)
    && OneLine(OrEmpty(e.noticeId)) && OneLine(OrEmpty(e.policyVersionId))
    && OneLine(OrEmpty(e.policyConfigVersion)) && OneLine(List(e.jurisdictions))
    && OneLine(List(e.vendors)) && OneLine(OrEmpty(e.mechanism)) && OneLine(e.source)
  }

  predicate FactsOnOneLine(f: Facts) {
    && OneLine(f.consentRecordId) && OneLine(f.siteId) && OneLine(f.principalExternalId)
    && OneLine(f.purposeCode) && OneLine(f.status) && OneLine(OrEmpty(f.policyVersionId))
    && OneLine(OrEmpty(f.policyConfigVersion)) && OneLine(List(f.jurisdictions))
    && OneLine(f.receiptHash) && OneLine(OrEmpty(f.previousProofHash))
    && OneLine(OrEmpty(f.experimentId)) && OneLine(OrEmpty(f.variantKey))
  }

  lemma DecimalOnOneLine(n: nat)
    ensures OneLine(Decimal(n))
  {
    var s := Decimal(n);
    assert forall i :: 0 <= i < |s| ==> s[i] in DIGITS;
    assert '\n' !in DIGITS;
  }

  /**
   * Receipts of equal text cover equal evidence. One side on one line is enough: text moved
   * across a field boundary would add a line the other side does not have.
   */
  lemma ReceiptDetermines(p: Primitives, a: Evidence, b: Evidence)
    requires Ideal(p) && EvidenceOnOneLine(a)
    ensures CanonicalEvidence(p, a) == CanonicalEvidence(p, b) <==> BoundByReceipt(a) == BoundByReceipt(b)
  {
    if CanonicalEvidence(p, a) == CanonicalEvidence(p, b) {
      EvidenceLinesOnOneLine(p, a);
      JoinInjective(EvidenceLines(p, a), EvidenceLines(p, b), '\n');
      SameLinesCoverTheSame(p, a, b);
    }
  }

  lemma EvidenceLinesOnOneLine(p: Primitives, e: Evidence)
    requires Ideal(p) && EvidenceOnOneLine(e)
    ensures Free(EvidenceLines(p, e), '\n')
  {
  }

  lemma SameLinesCoverTheSame(p: Primitives, a: Evidence, b: Evidence)
    requires Ideal(p) && EvidenceLines(p, a) == EvidenceLines(p, b)
    ensures BoundByReceipt(a) == BoundByReceipt(b)
  {
    var la, lb := EvidenceLines(p, a), EvidenceLines(p, b);
    assert la[1] == lb[1] && la[2] == lb[2] && la[3] == lb[3] && la[4] == lb[4] && la[5] == lb[5];
    assert la[6] == lb[6] && la[7] == lb[7] && la[8] == lb[8] && la[9] == lb[9] && la[10] == lb[10];
    assert la[11] == lb[11] && la[12] == lb[12];
  }

  /** Read line by line, a receipt gives the evidence back, in this order. */
  lemma ReceiptReadsBack(p: Primitives, e: Evidence)
    requires Ideal(p) && EvidenceOnOneLine(e)
    ensures var l := Pieces(CanonicalEvidence(p, e), '\n');
            && |l| == 13 && l[0] == "rift-consent-receipt/1" && l[1] == e.siteId && l[2] == e.principalExternalId
            && l[3] == e.purposeCode && l[4] == e.status && l[5] == p.iso(e.decidedAt) && l[6] == OrEmpty(e.noticeId)
            && l[7] == OrEmpty(e.policyVersionId) && l[8] == OrEmpty(e.policyConfigVersion)
            && l[9] == List(e.jurisdictions) && l[10] == List(e.vendors) && l[11] == OrEmpty(e.mechanism) && l[12] == e.source
  {
    EvidenceLinesOnOneLine(p, e);
    PiecesOfJoin(EvidenceLines(p, e), '\n');
  }

  /** So does a proof document; version 1 leaves the last two lines out. */
  lemma ProofReadsBack(p: Primitives, f: Facts, version: string)
    requires Ideal(p) && FactsOnOneLine(f) && Supported(version)
    ensures ReadsAsProof(p, f, version, Pieces(CanonicalProof(p, f, version), '\n'))
  {
    ProofLinesOnOneLine(p, f, version);
    PiecesOfJoin(ProofLines(p, f, version), '\n');
    LinesReadAsProof(p, f, version);
  }

  predicate ReadsAsProof(p: Primitives, f: Facts, version: string, l: seq<string>) {
    && |l| == (if version == "rift-consent-proof/1" then 13 else 15)
    && l[0] == version && l[1] == f.consentRecordId && l[2] == f.siteId && l[3] == f.principalExternalId
    && l[4] == f.purposeCode && l[5] == f.status && l[6] == p.iso(f.decidedAt) && l[7] == OrEmpty(f.policyVersionId)
    && l[8] == OrEmpty(f.policyConfigVersion) && l[9] == List(f.jurisdictions) && l[10] == f.receiptHash
    && l[11] == Decimal(f.sequence) && l[12] == OrEmpty(f.previousProofHash)
    && (|l| == 15 ==> l[13] == OrEmpty(f.experimentId) && l[14] == OrEmpty(f.variantKey))
  }

  lemma LinesReadAsProof(p: Primitives, f: Facts, version: string)
    requires Supported(version)
    ensures ReadsAsProof(p, f, version, ProofLines(p, f, version))
  {
  }

  lemma FirstLine(p: Primitives, f: Facts, version: string)
    requires Supported(version)
    ensures |CanonicalProof(p, f, version)| >= 20
    ensures CanonicalProof(p, f, version)[..20] == version
  {
    var lines := ProofLines(p, f, version);
    assert |lines| > 1 && lines[0] == version && |version| == 20;
  }

  lemma ThreeMoreLines(a: string, b: string, c: string, rest: seq<string>)
    requires OneLine(a) && OneLine(b) && OneLine(c) && Free(rest, '\n')
    ensures Free([a, b, c] + rest, '\n')
  {
  }

  lemma ProofLinesOnOneLine(p: Primitives, f: Facts, version: string)
    requires Ideal(p) && FactsOnOneLine(f) && Supported(version)
    ensures Free(ProofLines(p, f, version), '\n')
  {
    DecimalOnOneLine(f.sequence);
    var last := [OrEmpty(f.previousProofHash)]
                + if version == PROOF_VERSION_V1 then [] else [OrEmpty(f.experimentId), OrEmpty(f.variantKey)];
    var list := List(f.jurisdictions);
    ThreeMoreLines(list, f.receiptHash, Decimal(f.sequence), last);
    var rest := [list, f.receiptHash, Decimal(f.sequence)] + last;
    MiddleLinesOnOneLine(p, f, version, rest);
    assert ProofLines(p, f, version)
        == [version, f.consentRecordId, f.siteId] + ([f.principalExternalId, f.purposeCode, f.status]
           + ([p.iso(f.decidedAt), OrEmpty(f.policyVersionId), OrEmpty(f.policyConfigVersion)] + rest));
  }

  lemma MiddleLinesOnOneLine(p: Primitives, f: Facts, version: string, rest: seq<string>)
    requires Ideal(p) && FactsOnOneLine(f) && Supported(version) && Free(rest, '\n')
    ensures Free([version, f.consentRecordId, f.siteId] + ([f.principalExternalId, f.purposeCode, f.status]
                 + ([p.iso(f.decidedAt), OrEmpty(f.policyVersionId), OrEmpty(f.policyConfigVersion)] + rest)), '\n')
  {
    var third := [p.iso(f.decidedAt), OrEmpty(f.policyVersionId), OrEmpty(f.policyConfigVersion)] + rest;
    ThreeMoreLines(p.iso(f.decidedAt), OrEmpty(f.policyVersionId), OrEmpty(f.policyConfigVersion), rest);
    var second := [f.principalExternalId, f.purposeCode, f.status] + third;
    ThreeMoreLines(f.principalExternalId, f.purposeCode, f.status, third);
    ThreeMoreLines(version, f.consentRecordId, f.siteId, second);
  }

  /** Proof documents of equal text carry the same version and bind the same facts. */
  lemma ProofDetermines(p: Primitives, a: Facts, va: string, b: Facts, vb: string)
    requires Ideal(p) && FactsOnOneLine(a) && Supported(va) && Supported(vb)
    ensures CanonicalProof(p, a, va) == CanonicalProof(p, b, vb) <==> BoundByProof(a, va) == BoundByProof(b, vb)
  {
    if CanonicalProof(p, a, va) == CanonicalProof(p, b, vb) {
      FirstLine(p, a, va);
      FirstLine(p, b, vb);
      assert va == vb;
      ProofLinesOnOneLine(p, a, va);
      JoinInjective(ProofLines(p, a, va), ProofLines(p, b, vb), '\n');
      SameLinesBindTheSame(p, a, b, va);
    }
  }

  lemma SameLinesBindTheSame(p: Primitives, a: Facts, b: Facts, version: string)
    requires Ideal(p) && ProofLines(p, a, version) == ProofLines(p, b, version)
    ensures BoundByProof(a, version) == BoundByProof(b, version)
  {
    var la, lb := ProofLines(p, a, version), ProofLines(p, b, version);
    assert la[1] == lb[1] && la[2] == lb[2] && la[3] == lb[3] && la[4] == lb[4] && la[5] == lb[5];
    assert la[6] == lb[6] && la[7] == lb[7] && la[8] == lb[8] && la[9] == lb[9] && la[10] == lb[10];
    assert la[11] == lb[11] && la[12] == lb[12];
    DecimalInjective(a.sequence, b.sequence) by { assert Decimal(a.sequence) == Decimal(b.sequence); }
    if version != PROOF_VERSION_V1 {
      assert la[13] == lb[13] && la[14] == lb[14];
    }
  }

  /** The order a list arrived in is not part of either form. */
  lemma ListForgetsOrder(a: seq<string>, b: seq<string>)
    requires multiset(a) == multiset(b)
    ensures List(a) == List(b)
  {
    LeqOrders();
    MapRearranges(a, b, Trim);
    SortForgetsOrder(Map(a, Trim), Map(b, Trim), Leq);
  }

  lemma SolidSorts(a: seq<string>)
    requires Solid(Map(a, Trim), ',')
    ensures Solid(SortedTexts(a), ',') && multiset(SortedTexts(a)) == multiset(Map(a, Trim))
  {
    LeqOrders();
    SortSorts(Map(a, Trim), Leq);
    var sorted := SortedTexts(a);
    forall i | 0 <= i < |sorted| ensures sorted[i] != "" && ',' !in sorted[i] {
      assert sorted[i] in Map(a, Trim);
    }
  }

  /** Among lists of non-empty comma-free items the printed list is the list, up to order and padding. */
  lemma ListDetermines(a: seq<string>, b: seq<string>)
    requires Solid(Map(a, Trim), ',') && Solid(Map(b, Trim), ',')
    ensures List(a) == List(b) <==> multiset(Map(a, Trim)) == multiset(Map(b, Trim))
  {
    if List(a) == List(b) {
      SolidSorts(a);
      SolidSorts(b);
      JoinSolidInjective(SortedTexts(a), SortedTexts(b), ',');
    }
    if multiset(Map(a, Trim)) == multiset(Map(b, Trim)) {
      LeqOrders();
      SortForgetsOrder(Map(a, Trim), Map(b, Trim), Leq);
    }
  }

  // ---- Where the forms do collide -------------------------------------------

  /**
   * A line break inside a field moves a field boundary: whatever evidence has one in its principal
   * shares its receipt with other evidence.
   */
  lemma ReceiptsCollideAcrossLines(p: Primitives, a: Evidence, x: string, y: string) returns (b: Evidence)
    requires a.principalExternalId == x + ['\n'] + y
    ensures CanonicalEvidence(p, a) == CanonicalEvidence(p, b) && BoundByReceipt(a) != BoundByReceipt(b)
  {
    b := a.(principalExternalId := x, purposeCode := y + ['\n'] + a.purposeCode);
    CollidingLines(p, a, b, x, y);
    assert BoundByReceipt(a).principalExternalId != BoundByReceipt(b).principalExternalId by {
      assert |a.principalExternalId| > |x|;
    }
  }

  /** The lines of a receipt after the four that come first. */
  function LaterLines(p: Primitives, e: Evidence): seq<string> {
    EvidenceLines(p, e)[4..]
  }

  lemma LinesInTwo(p: Primitives, e: Evidence)
    ensures EvidenceLines(p, e) == [RECEIPT_VERSION, e.siteId] + ([e.principalExternalId, e.purposeCode] + LaterLines(p, e))
  {
  }

  lemma CollidingLines(p: Primitives, a: Evidence, b: Evidence, x: string, y: string)
    requires a.principalExternalId == x + ['\n'] + y
    requires b == a.(principalExternalId := x, purposeCode := y + ['\n'] + a.purposeCode)
    ensures CanonicalEvidence(p, a) == CanonicalEvidence(p, b)
  {
    LinesInTwo(p, a);
    LinesInTwo(p, b);
    SameLater(p, a, b);
    BreakMoves([RECEIPT_VERSION, a.siteId], x, y, a.purposeCode, LaterLines(p, a), EvidenceLines(p, a), EvidenceLines(p, b));
  }

  lemma SameLater(p: Primitives, a: Evidence, b: Evidence)
    requires b == a.(principalExternalId := b.principalExternalId, purposeCode := b.purposeCode)
    ensures LaterLines(p, a) == LaterLines(p, b)
  {
  }

  lemma BreakMoves(head: seq<string>, x: string, y: string, z: string, tail: seq<string>, one: seq<string>, two: seq<string>)
    requires one == head + ([x + ['\n'] + y, z] + tail)
    requires two == head + ([x, y + ['\n'] + z] + tail)
    ensures Join(one, '\n') == Join(two, '\n')
  {
    assert one == head + [x + ['\n'] + y] + ([z] + tail);
    assert two == (head + [x]) + [y + ['\n'] + z] + tail;
    JoinAcross(head, x, y, [z] + tail, '\n');
    JoinAcross(head + [x], y, z, tail, '\n');
    assert head + [x, y] + ([z] + tail) == (head + [x]) + [y, z] + tail;
  }

  lemma {:induction false} JoinAcross(head: seq<string>, x: string, y: string, tail: seq<string>, sep: char)
    ensures Join(head + [x + [sep] + y] + tail, sep) == Join(head + [x, y] + tail, sep)
  {
    var one, two := head + [x + [sep] + y] + tail, head + [x, y] + tail;
    if head == [] {
      assert one == [x + [sep] + y] + tail && two == [x] + ([y] + tail);
      assert two[1..] == [y] + tail;
      if tail != [] {
        assert one[1..] == tail && ([y] + tail)[1..] == tail;
        assert Join(one, sep) == (x + [sep] + y) + [sep] + Join(tail, sep);
        assert Join(two, sep) == x + [sep] + (y + [sep] + Join(tail, sep));
      }
    } else {
      JoinAcross(head[1..], x, y, tail, sep);
      assert one[1..] == head[1..] + [x + [sep] + y] + tail;
      assert two[1..] == head[1..] + [x, y] + tail;
    }
  }

  /** A comma inside an item, or an empty item, prints like another list. */
  lemma ListsCollide()
    ensures List(["EU,IN"]) == List(["EU", "IN"])
    ensures List([""]) == List([])
  {
    assert Trim("EU,IN") == "EU,IN" && Trim("EU") == "EU" && Trim("IN") == "IN" && Trim("") == "";
    assert Map(["EU", "IN"], Trim) == ["EU", "IN"] && Map(["EU,IN"], Trim) == ["EU,IN"];
    assert Map([""], Trim) == [""];
    assert Leq("EU", "IN");
    assert Sort(["EU", "IN"], Leq) == Insert("EU", Sort(["IN"], Leq), Leq);
    assert Sort(["EU", "IN"], Leq) == ["EU", "IN"];
    assert Join(["EU", "IN"], ',') == "EU" + [','] + Join(["IN"], ',');
  }

  // ---- Building a proof -----------------------------------------------------

  datatype SigningKey = SigningKey(keyId: string, privateKey: string)
  datatype VerificationKey = VerificationKey(keyId: string, publicKey: string, revoked: bool)
  datatype Signature = Signature(keyId: string, value: string)
  datatype Proof = Proof(version: string, facts: Facts, proofHash: string, signature: Option<Signature>)

  /** The facts a caller states; the receipt digest is added when the proof is built. */
  function BuildProof(p: Primitives, facts: Facts, evidence: Evidence, key: Option<SigningKey>): Proof {
    var complete := facts.(receiptHash := ProofHash(p, evidence));
    var canonical := CanonicalProof(p, complete, PROOF_VERSION);
    var signature := match key
      case None => None
      case Some(k) => Some(Signature(k.keyId, p.sign(k.privateKey, canonical)));
    Proof(PROOF_VERSION, complete, p.sha256(canonical), signature)
  }

  // ---- Stored rows ----------------------------------------------------------

  datatype Row = Row(
    id: string, siteId: string, principalId: string, principalExternalId: string,
    purposeCode: string, status: string, decidedAt: int, noticeId: Option<string>,
    policyVersionId: Option<string>, policyConfigVersion: Option<string>,
    jurisdictions: seq<string>, vendors: seq<string>, mechanism: Option<string>, source: string,
    proofHash: Option<string>, proofSignature: Option<string>, proofKeyId: Option<string>,
    proofDocumentHash: Option<string>, proofPreviousHash: Option<string>,
    proofSequence: Option<nat>, proofVersion: Option<string>,
    experimentId: Option<string>, variantKey: Option<string>)

  function EvidenceFor(r: Row): Evidence {
    Evidence(r.siteId, r.principalExternalId, r.purposeCode, r.status, r.decidedAt, r.noticeId,
             r.policyVersionId, r.policyConfigVersion, r.jurisdictions, r.vendors, r.mechanism, r.source)
  }

  function VersionOf(r: Row): string {
    match r.proofVersion case None => PROOF_VERSION_V1 case Some(v) => v
  }

  function FactsFor(r: Row): Facts
    requires r.proofSequence.Some?
  {
    Facts(r.id, r.siteId, r.principalExternalId, r.purposeCode, r.status, r.decidedAt,
          r.policyVersionId, r.policyConfigVersion, r.jurisdictions, OrEmpty(r.proofHash),
          r.proofSequence.value, r.proofPreviousHash, r.experimentId, r.variantKey)
  }

  datatype BuiltProof = BuiltProof(proof: Option<Proof>, evidence: Evidence, reassemblyMismatch: bool)

  function ProofFor(p: Primitives, r: Row): BuiltProof {
    if r.proofSequence.None? || r.proofDocumentHash.None? then BuiltProof(None, EvidenceFor(r), false)
    else
      var facts := FactsFor(r);
      var signature := if r.proofSignature.None? || r.proofSignature.value == "" then None
                       else Some(Signature(if r.proofKeyId.Some? then r.proofKeyId.value else "unknown",
                                           r.proofSignature.value));
      BuiltProof(Some(Proof(VersionOf(r), facts, r.proofDocumentHash.value, signature)), EvidenceFor(r),
                 ProofDigest(p, facts, VersionOf(r)) != r.proofDocumentHash.value)
  }

  // ---- Verification ---------------------------------------------------------

  datatype Integrity = IntegrityValid | IntegrityInvalid
  datatype SignatureResult = SignatureValid | SignatureInvalid | Unsigned | UnknownKey | RevokedKey
  datatype ChainResult = ChainValid | ChainBroken | ChainUnverifiable

  datatype Finding =
    | ProofIsNotAnObject | NoFacts | NoDigest | CannotCheckVersion
    | RecordDoesNotMatchReceipt | DocumentDoesNotMatchDigest | RecordMatches
    | NotSigned | NoPublicKey | SignatureDoesNotVerify | GenuineButRevoked | SignatureVerifies
    | PrecedingNotSupplied | FirstDecision | LinksToPreceding | DoesNotLink

  /** What a caller may hand in: the fields that are read, each possibly missing. */
  datatype Candidate =
    | NotAnObject
    | Candidate(version: Option<string>, facts: Option<Facts>, proofHash: Option<string>, signature: Option<Signature>)

  datatype Verification = Verification(
    ok: bool, version: string, malformed: Option<Finding>, unsupportedVersion: bool,
    integrity: Option<Integrity>, signature: Option<SignatureResult>, keyId: Option<string>,
    chain: Option<ChainResult>, findings: seq<Finding>)

  function Malformed(reason: Finding, version: string): Verification {
    Verification(false, version, Some(reason), false, None, None, None, None, [reason])
  }

  function AsCandidate(proof: Proof): Candidate {
    Candidate(Some(proof.version), Some(proof.facts), Some(proof.proofHash), proof.signature)
  }

  function FindKey(keys: seq<VerificationKey>, keyId: string): Option<VerificationKey> {
    if keys == [] then None
    else if keys[0].keyId == keyId then Some(keys[0])
    else FindKey(keys[1..], keyId)
  }

  /** The first key of the ring with this id stands at `i`. */
  predicate FirstKey(keys: seq<VerificationKey>, i: nat, keyId: string) {
    && i < |keys| && keys[i].keyId == keyId
    && forall j :: 0 <= j < i ==> keys[j].keyId != keyId
  }

  predicate KeyKnown(keys: seq<VerificationKey>, keyId: string) {
    exists k :: k in keys && k.keyId == keyId
  }

  /** The ring answers for the key's id with this very key. */
  predicate Answers(keys: seq<VerificationKey>, key: VerificationKey) {
    exists i: nat :: i < |keys| && FirstKey(keys, i, key.keyId) && keys[i] == key
  }

  /** The whole ring is searched, from its beginning. */
  lemma {:induction false} FindKeyFinds(keys: seq<VerificationKey>, keyId: string)
    ensures FindKey(keys, keyId).Some? <==> KeyKnown(keys, keyId)
    ensures forall i: nat :: FirstKey(keys, i, keyId) ==> FindKey(keys, keyId) == Some(keys[i])
    ensures FindKey(keys, keyId).Some? ==> exists i: nat :: FirstKey(keys, i, keyId)
  {
    if keys != [] {
      var rest := keys[1..];
      FindKeyFinds(rest, keyId);
      assert keys == [keys[0]] + rest;
      if keys[0].keyId == keyId {
        assert FirstKey(keys, 0, keyId);
      } else {
        forall i: nat | FirstKey(keys, i, keyId) ensures FindKey(keys, keyId) == Some(keys[i]) {
          assert FirstKey(rest, i - 1, keyId);
        }
        if i: nat :| FirstKey(rest, i, keyId) {
          assert FirstKey(keys, i + 1, keyId);
        }
      }
    }
  }

  /** The two digests both match: the record's receipt and the document's own. */
  predicate Intact(p: Primitives, facts: Facts, version: string, proofHash: string, evidence: Evidence) {
    facts.receiptHash == ProofHash(p, evidence) && ProofDigest(p, facts, version) == proofHash
  }

  function SignatureVerdict(p: Primitives, facts: Facts, version: string, signature: Option<Signature>,
                            keys: seq<VerificationKey>): SignatureResult {
    match signature
    case None => Unsigned
    case Some(sig) =>
      match FindKey(keys, sig.keyId)
      case None => UnknownKey
      case Some(key) =>
        if !p.verify(key.publicKey, CanonicalProof(p, facts, version), sig.value) then SignatureInvalid
        else if key.revoked then RevokedKey
        else SignatureValid
  }

  /** `expected` is None when the caller does not know, Some(None) for "nothing precedes it". */
  function ChainVerdict(previous: Option<string>, expected: Option<Option<string>>): ChainResult {
    if expected.None? then ChainUnverifiable
    else if previous == expected.value then ChainValid
    else ChainBroken
  }

  /** The integrity block: both digests are checked, and each failure leaves its own line. */
  method CheckIntegrity(p: Primitives, facts: Facts, version: string, proofHash: string, evidence: Evidence)
    returns (integrity: Integrity, findings: seq<Finding>)
    ensures integrity == IntegrityValid <==> Intact(p, facts, version, proofHash, evidence)
    ensures findings == IntegrityFindings(facts.receiptHash == ProofHash(p, evidence),
                                          ProofDigest(p, facts, version) == proofHash)
  {
    findings := [];
    var expectedReceipt := ProofHash(p, evidence);
    var recomputed := ProofDigest(p, facts, version);
    integrity := IntegrityValid;
    if facts.receiptHash != expectedReceipt {
      integrity := IntegrityInvalid;
      findings := findings + [RecordDoesNotMatchReceipt];
    }
    if recomputed != proofHash {
      integrity := IntegrityInvalid;
      findings := findings + [DocumentDoesNotMatchDigest];
    }
    if integrity == IntegrityValid {
      findings := findings + [RecordMatches];
    }
  }

  /** The signature verifies over this very document with the key it names, which is revoked or not. */
  predicate SignedUnder(p: Primitives, facts: Facts, version: string, signature: Option<Signature>, keys: seq<VerificationKey>, revoked: bool) {
    && signature.Some?
    && exists i: nat :: i < |keys| && FirstKey(keys, i, signature.value.keyId) && keys[i].revoked == revoked
                        && p.verify(keys[i].publicKey, CanonicalProof(p, facts, version), signature.value.value)
  }

  /** A document that has the three fields checking needs, under a version this build knows. */
  predicate Checkable(proof: Candidate) {
    && proof.Candidate? && proof.facts.Some? && proof.proofHash.Some?
    && proof.version.Some? && Supported(proof.version.value)
  }

  /** What a result says when the document cannot be checked: why, the first thing missing, and nothing else. */
  predicate NoVerdicts(proof: Candidate, v: Verification) {
    && !v.ok && v.integrity == None && v.signature == None && v.chain == None && |v.findings| == 1
    && (v.unsupportedVersion <==> proof.Candidate? && proof.facts.Some? && proof.proofHash.Some?)
    && (v.malformed == None <==> v.unsupportedVersion)
    && (proof.NotAnObject? <==> v.findings[0] == ProofIsNotAnObject)
    && (proof.Candidate? && proof.facts.None? <==> v.findings[0] == NoFacts)
    && (proof.Candidate? && proof.facts.Some? && proof.proofHash.None? <==> v.findings[0] == NoDigest)
    && (v.unsupportedVersion <==> v.findings[0] == CannotCheckVersion)
    && (v.malformed.Some? ==> v.malformed.value == v.findings[0])
  }

  /** One line per digest that fails, or one that both match, then one about the signature and one about the chain. */
  predicate Explained(receiptMatches: bool, digestMatches: bool, signature: SignatureResult, chain: ChainResult, first: bool,
                      findings: seq<Finding>) {
    && (RecordDoesNotMatchReceipt in findings <==> !receiptMatches)
    && (DocumentDoesNotMatchDigest in findings <==> !digestMatches)
    && (RecordMatches in findings <==> receiptMatches && digestMatches)
    && (NotSigned in findings <==> signature == Unsigned)
    && (NoPublicKey in findings <==> signature == UnknownKey)
    && (SignatureDoesNotVerify in findings <==> signature == SignatureInvalid)
    && (GenuineButRevoked in findings <==> signature == RevokedKey)
    && (SignatureVerifies in findings <==> signature == SignatureValid)
    && (PrecedingNotSupplied in findings <==> chain == ChainUnverifiable)
    && (FirstDecision in findings <==> chain == ChainValid && first)
    && (LinksToPreceding in findings <==> chain == ChainValid && !first)
    && (DoesNotLink in findings <==> chain == ChainBroken)
    && |findings| == if receiptMatches || digestMatches then 3 else 4
  }

  /** The three questions: are the digests those of the contents, who signed, does it follow its predecessor. */
  predicate ThreeVerdicts(p: Primitives, facts: Facts, version: string, proofHash: string, signature: Option<Signature>,
                          evidence: Evidence, keys: seq<VerificationKey>, expected: Option<Option<string>>, v: Verification) {
    && v.malformed == None && !v.unsupportedVersion && v.integrity.Some? && v.signature.Some? && v.chain.Some?
    && (v.integrity == Some(IntegrityValid) <==> Intact(p, facts, version, proofHash, evidence))
    && (v.signature == Some(Unsigned) <==> signature == None)
    && (v.signature == Some(UnknownKey) <==> signature.Some? && !KeyKnown(keys, signature.value.keyId))
    && (v.signature == Some(SignatureValid) <==> SignedUnder(p, facts, version, signature, keys, false))
    && (v.signature == Some(RevokedKey) <==> SignedUnder(p, facts, version, signature, keys, true))
    && (v.chain == Some(ChainUnverifiable) <==> expected == None)
    && (v.chain == Some(ChainValid) <==> expected == Some(facts.previousProofHash))
    && v.version == version && (v.keyId.Some? <==> signature.Some?) && (v.keyId.Some? ==> v.keyId.value == signature.value.keyId)
    && Explained(facts.receiptHash == ProofHash(p, evidence), ProofDigest(p, facts, version) == proofHash,
                 v.signature.value, v.chain.value, facts.previousProofHash.None?, v.findings)
  }

  /** No verdict where the document cannot be checked, three where it can, and a pass where none speaks against it. */
  predicate Verdicts(p: Primitives, proof: Candidate, evidence: Evidence, keys: seq<VerificationKey>,
                     expected: Option<Option<string>>, v: Verification) {
    && (if Checkable(proof)
        then ThreeVerdicts(p, proof.facts.value, proof.version.value, proof.proofHash.value, proof.signature, evidence, keys, expected, v)
        else NoVerdicts(proof, v))
    && (v.ok <==> v.integrity == Some(IntegrityValid) && v.signature in {Some(SignatureValid), Some(Unsigned)}
                  && v.chain in {Some(ChainValid), Some(ChainUnverifiable)})
  }

  lemma VerifyGivesVerdicts(p: Primitives, proof: Candidate, evidence: Evidence, keys: seq<VerificationKey>,
                            expected: Option<Option<string>>)
    ensures Verdicts(p, proof, evidence, keys, expected, Verify(p, proof, evidence, keys, expected))
  {
    if Checkable(proof) {
      SignatureVerdictMeans(p, proof.facts.value, proof.version.value, proof.signature, keys);
      var facts, version := proof.facts.value, proof.version.value;
      FindingsExplain(facts.receiptHash == ProofHash(p, evidence), ProofDigest(p, facts, version) == proof.proofHash.value,
                      SignatureVerdict(p, facts, version, proof.signature, keys),
                      ChainVerdict(facts.previousProofHash, expected), facts.previousProofHash);
    }
  }

  /** What is said of the signature, and of nothing else. */
  predicate SignatureLine(f: Finding) {
    f.NotSigned? || f.NoPublicKey? || f.SignatureDoesNotVerify? || f.GenuineButRevoked? || f.SignatureVerifies?
  }

  predicate ChainLine(f: Finding) {
    f.PrecedingNotSupplied? || f.FirstDecision? || f.LinksToPreceding? || f.DoesNotLink?
  }

  lemma OneLineEach(own: seq<Finding>, s: Finding, c: Finding)
    requires (forall f :: f in own ==> !SignatureLine(f) && !ChainLine(f)) && SignatureLine(s) && ChainLine(c)
    ensures var all := own + [s] + [c];
            && (forall f :: !SignatureLine(f) && !ChainLine(f) ==> (f in all <==> f in own))
            && (forall f :: SignatureLine(f) ==> (f in all <==> f == s))
            && (forall f :: ChainLine(f) ==> (f in all <==> f == c))
  {
  }

  lemma FindingsExplain(receiptMatches: bool, digestMatches: bool, signature: SignatureResult, chain: ChainResult, previous: Option<string>)
    ensures Explained(receiptMatches, digestMatches, signature, chain, previous.None?,
                      IntegrityFindings(receiptMatches, digestMatches) + [SignatureFinding(signature)] + [ChainFinding(chain, previous)])
  {
    IntegrityExplains(receiptMatches, digestMatches);
    OneLineEach(IntegrityFindings(receiptMatches, digestMatches), SignatureFinding(signature), ChainFinding(chain, previous));
  }

  lemma IntegrityExplains(receiptMatches: bool, digestMatches: bool)
    ensures var own := IntegrityFindings(receiptMatches, digestMatches);
            && |own| == (if receiptMatches || digestMatches then 1 else 2)
            && forall f :: f in own <==>
                 || (f == RecordDoesNotMatchReceipt && !receiptMatches)
                 || (f == DocumentDoesNotMatchDigest && !digestMatches)
                 || (f == RecordMatches && receiptMatches && digestMatches)
  {
  }

  lemma SignatureVerdictMeans(p: Primitives, facts: Facts, version: string, signature: Option<Signature>, keys: seq<VerificationKey>)
    ensures var verdict := SignatureVerdict(p, facts, version, signature, keys);
            && (verdict == Unsigned <==> signature == None)
            && (verdict == UnknownKey <==> signature.Some? && !KeyKnown(keys, signature.value.keyId))
            && (verdict == SignatureValid <==> SignedUnder(p, facts, version, signature, keys, false))
            && (verdict == RevokedKey <==> SignedUnder(p, facts, version, signature, keys, true))
  {
    if signature.Some? {
      FindKeyFinds(keys, signature.value.keyId);
    }
  }

  /**
   * Checks a proof, block by block. A document that cannot be checked gets no verdict at all; one that
   * can gets three, each turning on its own question, and passes when none of them speaks against it.
   */
  method VerifySignedProof(p: Primitives, proof: Candidate, evidence: Evidence,
                           keys: seq<VerificationKey>, expected: Option<Option<string>>)
    returns (v: Verification)
    ensures v == Verify(p, proof, evidence, keys, expected)
    ensures Verdicts(p, proof, evidence, keys, expected, v)
  {
    VerifyGivesVerdicts(p, proof, evidence, keys, expected);
    if proof.NotAnObject? {
      return Malformed(ProofIsNotAnObject, "unknown");
    }
    var version := if proof.version.Some? then proof.version.value else "unknown";
    if proof.facts.None? {
      return Malformed(NoFacts, version);
    }
    if proof.proofHash.None? {
      return Malformed(NoDigest, version);
    }
    if !Supported(version) {
      return Verification(false, version, None, true, None, None, None, None, [CannotCheckVersion]);
    }
    var facts := proof.facts.value;
    var integrity, findings := CheckIntegrity(p, facts, version, proof.proofHash.value, evidence);
    var signature := SignatureVerdict(p, facts, version, proof.signature, keys);
    var keyId := match proof.signature case None => None case Some(sig) => Some(sig.keyId);
    findings := findings + [SignatureFinding(signature)];
    var chain := ChainVerdict(facts.previousProofHash, expected);
    findings := findings + [ChainFinding(chain, facts.previousProofHash)];
    v := Verification(
      integrity == IntegrityValid && (signature == SignatureValid || signature == Unsigned) && chain != ChainBroken,
      version, None, false, Some(integrity), Some(signature), keyId, Some(chain), findings);
  }

  function IntegrityFindings(receiptOk: bool, digestOk: bool): seq<Finding> {
    (if receiptOk then [] else [RecordDoesNotMatchReceipt])
    + (if digestOk then [] else [DocumentDoesNotMatchDigest])
    + (if receiptOk && digestOk then [RecordMatches] else [])
  }

  function SignatureFinding(signature: SignatureResult): Finding {
    match signature
    case Unsigned => NotSigned
    case UnknownKey => NoPublicKey
    case SignatureInvalid => SignatureDoesNotVerify
    case RevokedKey => GenuineButRevoked
    case SignatureValid => SignatureVerifies
  }

  function ChainFinding(chain: ChainResult, previous: Option<string>): Finding {
    match chain
    case ChainUnverifiable => PrecedingNotSupplied
    case ChainValid => if previous.None? then FirstDecision else LinksToPreceding
    case ChainBroken => DoesNotLink
  }

  /** The answer as one expression: the verdicts, then one line per finding in the order checked. */
  function Verify(p: Primitives, proof: Candidate, evidence: Evidence,
                  keys: seq<VerificationKey>, expected: Option<Option<string>>): Verification {
    if proof.NotAnObject? then Malformed(ProofIsNotAnObject, "unknown")
    else
      var version := if proof.version.Some? then proof.version.value else "unknown";
      if proof.facts.None? then Malformed(NoFacts, version)
      else if proof.proofHash.None? then Malformed(NoDigest, version)
      else if !Supported(version) then
        Verification(false, version, None, true, None, None, None, None, [CannotCheckVersion])
      else
        var facts := proof.facts.value;
        var receiptOk := facts.receiptHash == ProofHash(p, evidence);
        var digestOk := ProofDigest(p, facts, version) == proof.proofHash.value;
        var signature := SignatureVerdict(p, facts, version, proof.signature, keys);
        var chain := ChainVerdict(facts.previousProofHash, expected);
        Verification(
          receiptOk && digestOk && (signature == SignatureValid || signature == Unsigned) && chain != ChainBroken,
          version, None, false,
          Some(if receiptOk && digestOk then IntegrityValid else IntegrityInvalid),
          Some(signature),
          match proof.signature case None => None case Some(sig) => Some(sig.keyId),
          Some(chain),
          IntegrityFindings(receiptOk, digestOk)
          + [SignatureFinding(signature)] + [ChainFinding(chain, facts.previousProofHash)])
  }

  // ---- A principal's chain, as the verification endpoint reads it -----------

  predicate AtPosition(r: Row, site: string, principal: string, s: nat) {
    r.siteId == site && r.principalId == principal && r.proofSequence == Some(s)
  }

  function FindPosition(table: seq<Row>, site: string, principal: string, s: nat): Option<Row> {
    if table == [] then None
    else if AtPosition(table[0], site, principal, s) then Some(table[0])
    else FindPosition(table[1..], site, principal, s)
  }

  /** The digest the store holds for the position before this one; a hole reads as null. */
  function ExpectedPrevious(table: seq<Row>, r: Row): Option<Option<string>> {
    match r.proofSequence
    case None => None
    case Some(s) =>
      if s <= 1 then Some(None)
      else match FindPosition(table, r.siteId, r.principalId, s - 1)
        case None => Some(None)
        case Some(before) => Some(before.proofDocumentHash)
  }

  /** The endpoint's answer for one record: None where the record carries no proof. */
  function CheckRecord(p: Primitives, keys: seq<VerificationKey>, table: seq<Row>, r: Row): Option<Verification> {
    match ProofFor(p, r).proof
    case None => None
    case Some(proof) => Some(Verify(p, AsCandidate(proof), EvidenceFor(r), keys, ExpectedPrevious(table, r)))
  }

  /** The check reports that the record or its place in the chain is not as it was written. */
  predicate Flagged(p: Primitives, keys: seq<VerificationKey>, table: seq<Row>, r: Row) {
    var v := CheckRecord(p, keys, table, r);
    v.Some? && (v.value.unsupportedVersion || v.value.integrity == Some(IntegrityInvalid) || v.value.chain == Some(ChainBroken))
  }

  predicate SamePosition(a: Row, b: Row) {
    a.proofSequence.Some? && AtPosition(b, a.siteId, a.principalId, a.proofSequence.value)
  }

  /** The unique index on (site, principal, sequence); rows without a sequence are outside it. */
  ghost predicate OnePerPosition(table: seq<Row>) {
    forall i, j :: 0 <= i < j < |table| ==> !SamePosition(table[i], table[j])
  }

  /** A row as it is written: digests over its own contents, under a version this build knows. */
  predicate WrittenWell(p: Primitives, r: Row) {
    r.proofSequence.Some? ==>
      && r.proofSequence.value >= 1
      && Supported(VersionOf(r))
      && r.proofHash == Some(ProofHash(p, EvidenceFor(r)))
      && r.proofDocumentHash == Some(ProofDigest(p, FactsFor(r), VersionOf(r)))
  }

  predicate Linked(table: seq<Row>, r: Row) {
    r.proofSequence.Some? ==>
      if r.proofSequence.value <= 1 then r.proofPreviousHash == None
      else
        var before := FindPosition(table, r.siteId, r.principalId, r.proofSequence.value - 1);
        before.Some? && r.proofPreviousHash.Some? && r.proofPreviousHash == before.value.proofDocumentHash
  }

  predicate WellAt(p: Primitives, table: seq<Row>, i: nat)
    requires i < |table|
  {
    WrittenWell(p, table[i]) && Linked(table, table[i])
  }

  /** Chains written by `recordConsentDecision`, in any mix of the two versions. */
  ghost predicate Honest(p: Primitives, table: seq<Row>) {
    && OnePerPosition(table)
    && (forall i: nat :: i < |table| ==> WellAt(p, table, i))
  }

  lemma {:induction false} FindPositionFinds(table: seq<Row>, site: string, principal: string, s: nat)
    ensures var found := FindPosition(table, site, principal, s);
            && (found.Some? ==> found.value in table && AtPosition(found.value, site, principal, s))
            && (found.None? ==> forall r :: r in table ==> !AtPosition(r, site, principal, s))
  {
    if table != [] && !AtPosition(table[0], site, principal, s) {
      FindPositionFinds(table[1..], site, principal, s);
    }
  }

  lemma {:induction false} FindPositionIs(table: seq<Row>, i: nat, s: nat)
    requires i < |table| && table[i].proofSequence == Some(s)
    requires forall j :: 0 <= j < i ==> !AtPosition(table[j], table[i].siteId, table[i].principalId, s)
    ensures FindPosition(table, table[i].siteId, table[i].principalId, s) == Some(table[i])
  {
    if i > 0 {
      FindPositionIs(table[1..], i - 1, s);
    }
  }

  /** Every record of an honest table reassembles exactly and passes, whatever version wrote it. */
  lemma HonestTableVerifies(p: Primitives, keys: seq<VerificationKey>, table: seq<Row>, i: nat)
    requires Honest(p, table) && i < |table| && table[i].proofSequence.Some?
    ensures var r := table[i];
            && !ProofFor(p, r).reassemblyMismatch
            && CheckRecord(p, keys, table, r).Some?
            && var v := CheckRecord(p, keys, table, r).value;
               && v.version == VersionOf(r) && !v.unsupportedVersion
               && v.integrity == Some(IntegrityValid) && v.chain == Some(ChainValid)
  {
    assert WellAt(p, table, i);
  }

  // ---- What tampering leaves behind -----------------------------------------

  /** Everything the two digests of a row cover. */
  function Bound(p: Primitives, r: Row): (BoundEvidence, BoundFacts)
    requires r.proofSequence.Some?
  {
    (BoundByReceipt(EvidenceFor(r)),
     BoundByProof(FactsFor(r).(receiptHash := ProofHash(p, EvidenceFor(r))), VersionOf(r)))
  }

  predicate RowOnOneLine(r: Row) {
    r.proofSequence.Some? && EvidenceOnOneLine(EvidenceFor(r)) && FactsOnOneLine(FactsFor(r))
  }

  predicate Follows(next: Row, r: Row) {
    r.proofSequence.Some? && AtPosition(next, r.siteId, r.principalId, r.proofSequence.value + 1)
  }

  /** Some other row of the table holds the position right after row `i`. */
  ghost predicate HasSuccessor(table: seq<Row>, i: nat)
    requires i < |table|
  {
    exists j :: 0 <= j < |table| && Follows(table[j], table[i])
  }

  /** Two intact rows that share a document digest cover the same contents. */
  lemma IntactRowsWithOneDigest(p: Primitives, a: Row, b: Row)
    requires Ideal(p)
    requires RowOnOneLine(a) && WrittenWell(p, a)
    requires b.proofSequence.Some? && Supported(VersionOf(b))
    requires OrEmpty(b.proofHash) == ProofHash(p, EvidenceFor(b))
    requires ProofDigest(p, FactsFor(b), VersionOf(b)) == ProofDigest(p, FactsFor(a), VersionOf(a))
    ensures Bound(p, a) == Bound(p, b)
  {
    ProofDetermines(p, FactsFor(a), VersionOf(a), FactsFor(b), VersionOf(b));
    assert BoundByProof(FactsFor(a), VersionOf(a)).receiptHash == BoundByProof(FactsFor(b), VersionOf(b)).receiptHash;
    ReceiptDetermines(p, EvidenceFor(a), EvidenceFor(b));
  }

  /** A row whose predecessor no longer carries the digest it names is reported broken. */
  lemma BrokenLinkIsFlagged(p: Primitives, keys: seq<VerificationKey>, table: seq<Row>, r: Row)
    requires WrittenWell(p, r) && r.proofSequence.Some?
    requires ExpectedPrevious(table, r) != Some(r.proofPreviousHash)
    ensures Flagged(p, keys, table, r)
    ensures CheckRecord(p, keys, table, r).value.chain == Some(ChainBroken)
  {
  }

  lemma UnflaggedIsIntact(p: Primitives, keys: seq<VerificationKey>, table: seq<Row>, r: Row)
    requires r.proofSequence.Some? && r.proofDocumentHash.Some? && !Flagged(p, keys, table, r)
    ensures Supported(VersionOf(r))
    ensures OrEmpty(r.proofHash) == ProofHash(p, EvidenceFor(r))
    ensures ProofDigest(p, FactsFor(r), VersionOf(r)) == r.proofDocumentHash.value
  {
  }

  lemma UnflaggedStandInCoversTheSame(p: Primitives, keys: seq<VerificationKey>, table: seq<Row>, was: Row, altered: Row)
    requires Ideal(p) && RowOnOneLine(was) && WrittenWell(p, was)
    requires altered.proofSequence.Some? && altered.proofDocumentHash == was.proofDocumentHash
    requires !Flagged(p, keys, table, altered)
    ensures Bound(p, altered) == Bound(p, was)
  {
    UnflaggedIsIntact(p, keys, table, altered);
    IntactRowsWithOneDigest(p, was, altered);
  }

  /** A row names the digest of the row it follows. */
  lemma FollowerNames(p: Primitives, table: seq<Row>, i: nat, next: Row)
    requires OnePerPosition(table) && i < |table| && Follows(next, table[i])
    requires Linked(table, next) && table[i].proofSequence.value >= 1
    ensures next.proofPreviousHash.Some? && next.proofPreviousHash == table[i].proofDocumentHash
  {
    NoOtherAt(table, i);
    FindPositionIs(table, i, table[i].proofSequence.value);
  }

  /** What now stands at a position, when only row `i` held it and row `i` was replaced. */
  lemma StandIn(table: seq<Row>, i: nat, altered: Row, now: seq<Row>)
    requires OnePerPosition(table) && i < |table| && table[i].proofSequence.Some? && now == table[i := altered]
    ensures var found := FindPosition(now, table[i].siteId, table[i].principalId, table[i].proofSequence.value);
            found.Some? ==> found.value == altered && altered.proofSequence.Some?
  {
    var was := table[i];
    NoOtherAt(table, i);
    FindPositionFinds(now, was.siteId, was.principalId, was.proofSequence.value);
    var found := FindPosition(now, was.siteId, was.principalId, was.proofSequence.value);
    if found.Some? {
      var k :| 0 <= k < |now| && now[k] == found.value;
      assert k == i;
    }
  }

  lemma LinkNeedsTheDigest(table: seq<Row>, was: Row, next: Row)
    requires Follows(next, was) && was.proofSequence.value >= 1 && next.proofPreviousHash.Some?
    requires ExpectedPrevious(table, next) == Some(next.proofPreviousHash)
    ensures var found := FindPosition(table, was.siteId, was.principalId, was.proofSequence.value);
            found.Some? && found.value.proofDocumentHash == next.proofPreviousHash
  {
  }

  /**
   * Replace any row that is not the last of its chain by any row at all, with whatever digests:
   * unless the replacement covers the very same contents, checking it or the row after it reports it.
   */
  lemma AlterationIsFlagged(p: Primitives, keys: seq<VerificationKey>, table: seq<Row>, i: nat, j: nat, altered: Row)
    requires Ideal(p) && Honest(p, table) && i < |table| && j < |table|
    requires RowOnOneLine(table[i]) && Follows(table[j], table[i])
    requires altered.proofSequence.None? || Bound(p, altered) != Bound(p, table[i])
    ensures Flagged(p, keys, table[i := altered], altered) || Flagged(p, keys, table[i := altered], table[j])
  {
    var now, was, next := table[i := altered], table[i], table[j];
    assert WellAt(p, table, i) && WellAt(p, table, j);
    FollowerNames(p, table, i, next);
    if ExpectedPrevious(now, next) != Some(next.proofPreviousHash) {
      BrokenLinkIsFlagged(p, keys, now, next);
    } else {
      LinkNeedsTheDigest(now, was, next);
      StandIn(table, i, altered, now);
      if !Flagged(p, keys, now, altered) {
        UnflaggedStandInCoversTheSame(p, keys, now, was, altered);
      }
    }
  }

  lemma NoOtherAt(table: seq<Row>, i: nat)
    requires OnePerPosition(table) && i < |table| && table[i].proofSequence.Some?
    ensures forall k :: 0 <= k < |table| && k != i ==>
              !AtPosition(table[k], table[i].siteId, table[i].principalId, table[i].proofSequence.value)
  {
    forall k | 0 <= k < |table| && k != i
      ensures !AtPosition(table[k], table[i].siteId, table[i].principalId, table[i].proofSequence.value)
    {
      assert !SamePosition(table[if i < k then i else k], table[if i < k then k else i]);
    }
  }

  function Without(table: seq<Row>, i: nat): seq<Row>
    requires i < |table|
  {
    table[..i] + table[i + 1..]
  }

  ghost predicate SomeFlagged(p: Primitives, keys: seq<VerificationKey>, table: seq<Row>) {
    exists i :: 0 <= i < |table| && Flagged(p, keys, table, table[i])
  }

  lemma FlaggedSomewhere(p: Primitives, keys: seq<VerificationKey>, table: seq<Row>, r: Row)
    requires r in table && Flagged(p, keys, table, r)
    ensures SomeFlagged(p, keys, table)
  {
  }

  lemma WithoutHasTheRest(table: seq<Row>, i: nat, j: nat)
    requires i < |table| && j < |table| && j != i
    ensures table[j] in Without(table, i)
  {
    assert Without(table, i)[if j < i then j else j - 1] == table[j];
  }

  lemma RestIsFromTable(table: seq<Row>, i: nat, m: nat)
    requires i < |table| && m < |Without(table, i)|
    ensures Without(table, i)[m] == table[if m < i then m else m + 1]
  {
  }

  /** Removing a row is noticed by some remaining row's check exactly when it was not the last of its chain. */
  lemma DeletionIsFlaggedIff(p: Primitives, keys: seq<VerificationKey>, table: seq<Row>, i: nat)
    requires Ideal(p) && Honest(p, table) && i < |table|
    ensures SomeFlagged(p, keys, Without(table, i)) <==> HasSuccessor(table, i)
  {
    if HasSuccessor(table, i) {
      DeletionIsFlagged(p, keys, table, i);
    } else {
      DeletedLastIsClean(p, keys, table, i);
    }
  }

  lemma DeletionIsFlagged(p: Primitives, keys: seq<VerificationKey>, table: seq<Row>, i: nat)
    requires Honest(p, table) && i < |table| && HasSuccessor(table, i)
    ensures SomeFlagged(p, keys, Without(table, i))
  {
    var j :| 0 <= j < |table| && Follows(table[j], table[i]);
    HoleIsFlagged(p, keys, table, i, j);
    WithoutHasTheRest(table, i, j);
    FlaggedSomewhere(p, keys, Without(table, i), table[j]);
  }

  lemma DeletedLastIsClean(p: Primitives, keys: seq<VerificationKey>, table: seq<Row>, i: nat)
    requires Honest(p, table) && i < |table| && !HasSuccessor(table, i)
    ensures !SomeFlagged(p, keys, Without(table, i))
  {
    var now := Without(table, i);
    forall r | r in now ensures !Flagged(p, keys, now, r) {
      var m: nat :| m < |now| && now[m] == r;
      RestIsFromTable(table, i, m);
      OthersStayClean(p, keys, table, i, if m < i then m else m + 1);
    }
    NoneFlagged(p, keys, now);
  }

  lemma NoneFlagged(p: Primitives, keys: seq<VerificationKey>, table: seq<Row>)
    requires forall r :: r in table ==> !Flagged(p, keys, table, r)
    ensures !SomeFlagged(p, keys, table)
  {
  }

  lemma HoleHasNoRow(table: seq<Row>, i: nat)
    requires OnePerPosition(table) && i < |table| && table[i].proofSequence.Some?
    ensures FindPosition(Without(table, i), table[i].siteId, table[i].principalId, table[i].proofSequence.value).None?
  {
    var now, was := Without(table, i), table[i];
    NoOtherAt(table, i);
    FindPositionFinds(now, was.siteId, was.principalId, was.proofSequence.value);
    forall r | r in now ensures !AtPosition(r, was.siteId, was.principalId, was.proofSequence.value) {
      var k :| 0 <= k < |now| && now[k] == r;
      assert r == table[if k < i then k else k + 1];
    }
  }

  lemma HoleExpectsNothing(table: seq<Row>, i: nat, next: Row)
    requires OnePerPosition(table) && i < |table| && Follows(next, table[i])
    ensures ExpectedPrevious(Without(table, i), next) == Some(None)
  {
    HoleHasNoRow(table, i);
  }

  lemma HoleIsFlagged(p: Primitives, keys: seq<VerificationKey>, table: seq<Row>, i: nat, j: nat)
    requires Honest(p, table) && i < |table| && j < |table| && Follows(table[j], table[i])
    ensures Flagged(p, keys, Without(table, i), table[j])
  {
    assert WellAt(p, table, i) && WellAt(p, table, j);
    FollowerNames(p, table, i, table[j]);
    HoleExpectsNothing(table, i, table[j]);
    BrokenLinkIsFlagged(p, keys, Without(table, i), table[j]);
  }

  lemma OthersStayClean(p: Primitives, keys: seq<VerificationKey>, table: seq<Row>, i: nat, k: nat)
    requires Honest(p, table) && i < |table| && k < |table| && k != i && !HasSuccessor(table, i)
    ensures !Flagged(p, keys, Without(table, i), table[k])
  {
    if table[k].proofSequence.Some? {
      HonestTableVerifies(p, keys, table, k);
      PredecessorSurvives(table, i, k);
    }
  }

  /** Taking a row out leaves what stands at any other position. */
  lemma {:induction false} FindPositionWithout(table: seq<Row>, i: nat, site: string, principal: string, s: nat)
    requires i < |table| && !AtPosition(table[i], site, principal, s)
    ensures FindPosition(Without(table, i), site, principal, s) == FindPosition(table, site, principal, s)
  {
    if i == 0 {
      assert Without(table, 0) == table[1..];
    } else {
      FindPositionWithout(table[1..], i - 1, site, principal, s);
      assert Without(table, i)[1..] == Without(table[1..], i - 1);
    }
  }

  lemma PredecessorSurvives(table: seq<Row>, i: nat, k: nat)
    requires i < |table| && k < |table| && !HasSuccessor(table, i)
    ensures ExpectedPrevious(Without(table, i), table[k]) == ExpectedPrevious(table, table[k])
  {
    var r := table[k];
    if r.proofSequence.Some? && r.proofSequence.value > 1 {
      assert !Follows(r, table[i]);
      FindPositionWithout(table, i, r.siteId, r.principalId, r.proofSequence.value - 1);
    }
  }

  /** An alteration that keeps the row's place in the chain and refreshes both of its digests. */
  predicate Refreshed(p: Primitives, was: Row, altered: Row) {
    && was.proofSequence.Some?
    && AtPosition(altered, was.siteId, was.principalId, was.proofSequence.value)
    && altered.proofPreviousHash == was.proofPreviousHash
    && WrittenWell(p, altered)
  }

  /** With its own digests refreshed, an alteration is noticed exactly when a later row links to it. */
  lemma RefreshedAlterationIsFlaggedIff(p: Primitives, keys: seq<VerificationKey>, table: seq<Row>, i: nat, altered: Row)
    requires Ideal(p) && Honest(p, table) && i < |table|
    requires Refreshed(p, table[i], altered)
    requires RowOnOneLine(table[i]) && Bound(p, altered) != Bound(p, table[i])
    ensures SomeFlagged(p, keys, table[i := altered]) <==> HasSuccessor(table, i)
  {
    var now := table[i := altered];
    if HasSuccessor(table, i) {
      var j :| 0 <= j < |table| && Follows(table[j], table[i]);
      AlterationIsFlagged(p, keys, table, i, j, altered);
      assert now[i] == altered && now[j] == table[j];
    } else {
      forall k | 0 <= k < |now| ensures !Flagged(p, keys, now, now[k]) {
        RefreshedLastIsClean(p, keys, table, i, altered, k);
      }
    }
  }

  lemma LinkedRowIsClean(p: Primitives, keys: seq<VerificationKey>, table: seq<Row>, r: Row)
    requires WrittenWell(p, r)
    requires r.proofSequence.Some? ==> ExpectedPrevious(table, r) == Some(r.proofPreviousHash)
    ensures !Flagged(p, keys, table, r)
  {
  }

  lemma LinkedExpects(table: seq<Row>, r: Row)
    requires Linked(table, r)
    ensures r.proofSequence.Some? ==> ExpectedPrevious(table, r) == Some(r.proofPreviousHash)
  {
  }

  lemma RefreshedLastIsClean(p: Primitives, keys: seq<VerificationKey>, table: seq<Row>, i: nat, altered: Row, k: nat)
    requires Honest(p, table) && i < |table| && k < |table| && !HasSuccessor(table, i)
    requires Refreshed(p, table[i], altered)
    ensures !Flagged(p, keys, table[i := altered], table[i := altered][k])
  {
    assert WellAt(p, table, k);
    ExpectedPreviousUntouched(table, i, altered, k);
    LinkedExpects(table, table[k]);
    LinkedRowIsClean(p, keys, table[i := altered], if k == i then altered else table[k]);
  }

  lemma ExpectedPreviousUntouched(table: seq<Row>, i: nat, altered: Row, k: nat)
    requires i < |table| && k < |table| && !HasSuccessor(table, i)
    requires table[i].proofSequence.Some?
    requires AtPosition(altered, table[i].siteId, table[i].principalId, table[i].proofSequence.value)
    ensures ExpectedPrevious(table[i := altered], table[i := altered][k]) == ExpectedPrevious(table, table[k])
  {
    var r := table[k];
    if r.proofSequence.Some? && r.proofSequence.value > 1 {
      assert !Follows(r, table[i]);
      FindPositionUntouched(table, i, altered, r.siteId, r.principalId, r.proofSequence.value - 1);
    }
  }

  lemma {:induction false} FindPositionUntouched(table: seq<Row>, i: nat, altered: Row, site: string, principal: string, s: nat)
    requires i < |table|
    requires !AtPosition(table[i], site, principal, s) && !AtPosition(altered, site, principal, s)
    ensures FindPosition(table[i := altered], site, principal, s) == FindPosition(table, site, principal, s)
  {
    if i > 0 {
      FindPositionUntouched(table[1..], i - 1, altered, site, principal, s);
      assert table[i := altered][1..] == table[1..][i - 1 := altered];
    }
  }

  // ---- Signatures -----------------------------------------------------------

  /** A proof built with a key passes under a ring that holds that key's public half, and names it. */
  lemma BuiltProofVerifies(p: Primitives, facts: Facts, evidence: Evidence, key: Option<SigningKey>,
                           keys: seq<VerificationKey>, expected: Option<Option<string>>)
    requires IdealSignatures(p)
    requires key.Some? ==> Answers(keys, VerificationKey(key.value.keyId, p.publicOf(key.value.privateKey), false))
    requires expected.None? || expected.value == facts.previousProofHash
    ensures var v := Verify(p, AsCandidate(BuildProof(p, facts, evidence, key)), evidence, keys, expected);
            && v.ok && v.integrity == Some(IntegrityValid)
            && v.signature == Some(if key.Some? then SignatureValid else Unsigned)
  {
    if key.Some? {
      FindKeyFinds(keys, key.value.keyId);
    }
  }

  /**
   * A signature reported valid was made by the named key's holder over these very facts: whatever
   * else that holder signed with it under a known version binds the same contents.
   */
  lemma ValidSignatureBinds(p: Primitives, privateKey: string, keyId: string, keys: seq<VerificationKey>,
                            signed: Facts, signedVersion: string, seen: Facts, seenVersion: string)
    requires Ideal(p) && IdealSignatures(p)
    requires Answers(keys, VerificationKey(keyId, p.publicOf(privateKey), false))
    requires FactsOnOneLine(signed) && Supported(signedVersion) && Supported(seenVersion)
    ensures var sig := Signature(keyId, p.sign(privateKey, CanonicalProof(p, signed, signedVersion)));
            (SignatureVerdict(p, seen, seenVersion, Some(sig), keys) == SignatureValid)
            <==> (BoundByProof(seen, seenVersion) == BoundByProof(signed, signedVersion))
  {
    FindKeyFinds(keys, keyId);
    ProofDetermines(p, signed, signedVersion, seen, seenVersion);
    assert p.sign(privateKey, CanonicalProof(p, signed, signedVersion)) == p.sign(privateKey, CanonicalProof(p, seen, seenVersion))
      ==> CanonicalProof(p, signed, signedVersion) == CanonicalProof(p, seen, seenVersion);
  }

  // ---- The assumptions can be met -------------------------------------------

  function Escape(s: string): string {
    if s == "" then ""
    else (if s[0] == '\n' then "\\n" else if s[0] == '\\' then "\\\\" else [s[0]]) + Escape(s[1..])
  }

  lemma {:induction false} EscapeInjective(a: string, b: string)
    requires Escape(a) == Escape(b)
    ensures a == b
  {
    if a != "" && b != "" {
      assert Escape(a)[0] == Escape(b)[0];
      assert a[0] == b[0] by {
        if a[0] == '\n' || a[0] == '\\' {
          assert Escape(a)[1] == Escape(b)[1];
        }
      }
      var n := if a[0] == '\n' || a[0] == '\\' then 2 else 1;
      assert Escape(a)[n..] == Escape(a[1..]) && Escape(b)[n..] == Escape(b[1..]);
      EscapeInjective(a[1..], b[1..]);
      assert a == [a[0]] + a[1..] && b == [b[0]] + b[1..];
    }
  }

  lemma {:induction false} EscapeOnOneLine(s: string)
    ensures OneLine(Escape(s))
  {
    if s != "" {
      EscapeOnOneLine(s[1..]);
    }
  }

  function Digits(n: int): string {
    if n < 0 then "-" + Decimal(-n) else Decimal(n)
  }

  lemma DigitsOnOneLine(n: int)
    ensures OneLine(Digits(n))
  {
    DecimalOnOneLine(if n < 0 then -n else n);
  }

  lemma DecimalIsUnsigned(n: nat)
    ensures Decimal(n) != "" && Decimal(n)[0] != '-'
  {
    assert Decimal(n)[0] in DIGITS;
  }

  lemma SignedTexts(negative: bool, x: string, minus: bool, y: string)
    requires x != "" && x[0] != '-' && y != "" && y[0] != '-'
    requires (if negative then "-" + x else x) == (if minus then "-" + y else y)
    ensures negative == minus && x == y
  {
    assert ("-" + x)[0] == '-' == ("-" + y)[0];
    assert ("-" + x)[1..] == x && ("-" + y)[1..] == y;
  }

  lemma DigitsInjective(m: int, n: int)
    requires Digits(m) == Digits(n)
    ensures m == n
  {
    var a, b := if m < 0 then -m else m, if n < 0 then -n else n;
    DecimalIsUnsigned(a);
    DecimalIsUnsigned(b);
    SignedTexts(m < 0, Decimal(a), n < 0, Decimal(b));
    DecimalInjective(a, b);
  }

  lemma HashesDiffer(a: string, b: string)
    requires "h" + Escape(a) == "h" + Escape(b)
    ensures a == b
  {
    assert ("h" + Escape(a))[1..] == Escape(a) && ("h" + Escape(b))[1..] == Escape(b);
    EscapeInjective(a, b);
  }

  lemma SignaturesDiffer(m: string, n: string)
    requires "s" + m == "s" + n
    ensures m == n
  {
    assert ("s" + m)[1..] == m && ("s" + n)[1..] == n;
  }

  /** A hash that escapes line breaks, decimal instants, and signatures that show what they sign. */
  function PlainPrimitives(): Primitives {
    Primitives((s: string) => "h" + Escape(s), Digits, (key: string) => key, (key: string, m: string) => "s" + m,
               (key: string, m: string, s: string) => s == "s" + m)
  }

  lemma PlainHashIsIdeal(sha256: string -> string)
    requires forall s :: sha256(s) == "h" + Escape(s)
    ensures forall a, b :: sha256(a) == sha256(b) ==> a == b
    ensures forall a :: sha256(a) != "" && '\n' !in sha256(a)
  {
    forall a, b | sha256(a) == sha256(b) ensures a == b {
      HashesDiffer(a, b);
    }
    forall a ensures sha256(a) != "" && '\n' !in sha256(a) {
      EscapeOnOneLine(a);
    }
  }

  lemma PlainSignaturesAreIdeal(p: Primitives)
    requires p == PlainPrimitives()
    ensures IdealSignatures(p)
  {
    forall key, m, n | p.sign(key, m) == p.sign(key, n) ensures m == n {
      SignaturesDiffer(m, n);
    }
  }

  lemma PlainInstantsAreIdeal(iso: int -> string)
    requires forall s :: iso(s) == Digits(s)
    ensures forall s, t :: iso(s) == iso(t) ==> s == t
    ensures forall s :: '\n' !in iso(s)
  {
    forall s, t | iso(s) == iso(t) ensures s == t {
      DigitsInjective(s, t);
    }
    forall s ensures '\n' !in iso(s) {
      DigitsOnOneLine(s);
    }
  }

  lemma IdealPrimitivesExist()
    ensures exists p :: Ideal(p) && IdealSignatures(p)
  {
    var p := PlainPrimitives();
    PlainHashIsIdeal(p.sha256);
    PlainInstantsAreIdeal(p.iso);
    PlainSignaturesAreIdeal(p);
    assert Ideal(p) && IdealSignatures(p);
  }
}
