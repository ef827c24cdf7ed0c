/** What the check of a stored record answers, said of the record's own columns. */
module RecordChecks {
  // A stored record has no document of its own: one is put together from its columns and then checked.
  // What is put together has to be what was signed, and nothing in it may come from another column.

  import opened Text
  import opened ConsentProof

  /** The receipt, line by line; a list shows as `List` prints it. */
  ghost predicate ReadsAsReceipt(p: Primitives, r: Row, l: seq<string>) {
    && |l| == 13 && l[0] == "rift-consent-receipt/1" && l[1] == r.siteId && l[2] == r.principalExternalId
    && l[3] == r.purposeCode && l[4] == r.status && l[5] == p.iso(r.decidedAt) && l[6] == OrEmpty(r.noticeId)
    && l[7] == OrEmpty(r.policyVersionId) && l[8] == OrEmpty(r.policyConfigVersion)
    && l[9] == List(r.jurisdictions) && l[10] == List(r.vendors) && l[11] == OrEmpty(r.mechanism) && l[12] == r.source
  }

  ghost predicate ReadsAsDocument(p: Primitives, r: Row, l: seq<string>) {
    && r.proofSequence.Some?
    && |l| == (if WrittenUnder(r, "rift-consent-proof/1") then 13 else 15)
    && WrittenUnder(r, l[0]) && l[1] == r.id && l[2] == r.siteId && l[3] == r.principalExternalId
    && l[4] == r.purposeCode && l[5] == r.status && l[6] == p.iso(r.decidedAt) && l[7] == OrEmpty(r.policyVersionId)
    && l[8] == OrEmpty(r.policyConfigVersion) && l[9] == List(r.jurisdictions) && l[10] == OrEmpty(r.proofHash)
    && l[11] == Decimal(r.proofSequence.value) && l[12] == OrEmpty(r.proofPreviousHash)
    && (|l| == 15 ==> l[13] == OrEmpty(r.experimentId) && l[14] == OrEmpty(r.variantKey))
  }

  /** A record that names no version was written under the first. */
  ghost predicate WrittenUnder(r: Row, version: string) {
    if r.proofVersion.None? then version == "rift-consent-proof/1" else r.proofVersion == Some(version)
  }

  /** The two texts a check recomputes for a stored record read, line by line, as its columns. */
  lemma RecordReadsBack(p: Primitives, r: Row)
    requires Ideal(p) && RowOnOneLine(r) && Supported(VersionOf(r))
    ensures ReadsAsReceipt(p, r, Pieces(CanonicalEvidence(p, EvidenceFor(r)), '\n'))
    ensures ReadsAsDocument(p, r, Pieces(CanonicalProof(p, FactsFor(r), VersionOf(r)), '\n'))
  {
    ReceiptReadsBack(p, EvidenceFor(r));
    ProofReadsBack(p, FactsFor(r), VersionOf(r));
  }

  // ---- The columns the digests cover ----------------------------------------

  /** Every column that is covered reads alike, null as the empty text and a list whatever its order. */
  ghost predicate SameColumns(a: Row, b: Row) {
    && a.id == b.id && a.siteId == b.siteId && a.principalExternalId == b.principalExternalId
    && a.purposeCode == b.purposeCode && a.status == b.status && a.decidedAt == b.decidedAt
    && OrEmpty(a.noticeId) == OrEmpty(b.noticeId) && OrEmpty(a.policyVersionId) == OrEmpty(b.policyVersionId)
    && OrEmpty(a.policyConfigVersion) == OrEmpty(b.policyConfigVersion)
    && List(a.jurisdictions) == List(b.jurisdictions) && List(a.vendors) == List(b.vendors)
    && OrEmpty(a.mechanism) == OrEmpty(b.mechanism) && a.source == b.source
    && a.proofSequence == b.proofSequence && OrEmpty(a.proofPreviousHash) == OrEmpty(b.proofPreviousHash)
    && (forall v :: WrittenUnder(a, v) <==> WrittenUnder(b, v))
    && (!WrittenUnder(a, "rift-consent-proof/1") ==>
          OrEmpty(a.experimentId) == OrEmpty(b.experimentId) && OrEmpty(a.variantKey) == OrEmpty(b.variantKey))
  }

  /**
   * The contents `AlterationIsFlagged` speaks of are exactly these columns: among them the notice, the
   * vendors and the mechanism, which only the receipt has, and not the experiment under the first version.
   */
  lemma BoundIsTheColumns(p: Primitives, a: Row, b: Row)
    requires a.proofSequence.Some? && b.proofSequence.Some?
    ensures Bound(p, a) == Bound(p, b) <==> SameColumns(a, b)
  {
    assert WrittenUnder(a, VersionOf(a)) && WrittenUnder(b, VersionOf(b));
    if SameColumns(a, b) {
      assert EvidenceLines(p, EvidenceFor(a)) == EvidenceLines(p, EvidenceFor(b));
    }
  }

  // ---- The answer for one record --------------------------------------------

  function KeyIdOf(r: Row): string {
    match r.proofKeyId case None => "unknown" case Some(id) => id
  }

  /** The digest on record for the position before this one; null for the first, and for one that is not there. */
  ghost predicate PrecedingDigest(table: seq<Row>, r: Row, digest: Option<string>)
    requires r.proofSequence.Some?
  {
    var s := r.proofSequence.value;
    if exists b :: b in table && s > 1 && AtPosition(b, r.siteId, r.principalId, s - 1)
    then exists b :: b in table && AtPosition(b, r.siteId, r.principalId, s - 1) && b.proofDocumentHash == digest
    else digest == None
  }

  lemma ExpectedIsPreceding(table: seq<Row>, r: Row)
    requires r.proofSequence.Some?
    ensures ExpectedPrevious(table, r).Some? && PrecedingDigest(table, r, ExpectedPrevious(table, r).value)
  {
    if r.proofSequence.value > 1 {
      FindPositionFinds(table, r.siteId, r.principalId, r.proofSequence.value - 1);
    }
  }

  lemma OnePrecedingDigest(table: seq<Row>, r: Row, a: Option<string>, b: Option<string>)
    requires OnePerPosition(table) && r.proofSequence.Some?
    requires PrecedingDigest(table, r, a) && PrecedingDigest(table, r, b)
    ensures a == b
  {
    var s := r.proofSequence.value;
    forall x, y | x in table && y in table && s > 1 && AtPosition(x, r.siteId, r.principalId, s - 1)
                  && AtPosition(y, r.siteId, r.principalId, s - 1)
      ensures x == y
    {
      var i :| 0 <= i < |table| && table[i] == x;
      var j :| 0 <= j < |table| && table[j] == y;
      assert SamePosition(table[i], table[j]) && SamePosition(table[j], table[i]);
    }
  }

  /** Who signed, by the record's columns and the ring. */
  ghost predicate SignedBy(p: Primitives, keys: seq<VerificationKey>, r: Row, document: string, verdict: SignatureResult) {
    && (verdict == Unsigned <==> OrEmpty(r.proofSignature) == "")
    && (verdict == UnknownKey <==> OrEmpty(r.proofSignature) != "" && !KeyKnown(keys, KeyIdOf(r)))
    && (forall i: nat :: FirstKey(keys, i, KeyIdOf(r)) && OrEmpty(r.proofSignature) != "" ==>
          var genuine := p.verify(keys[i].publicKey, document, r.proofSignature.value);
          verdict == if !genuine then SignatureInvalid else if keys[i].revoked then RevokedKey else SignatureValid)
  }

  lemma RecordIsSignedBy(p: Primitives, keys: seq<VerificationKey>, r: Row)
    requires r.proofSequence.Some? && r.proofDocumentHash.Some?
    ensures SignedBy(p, keys, r, CanonicalProof(p, FactsFor(r), VersionOf(r)),
                     SignatureVerdict(p, FactsFor(r), VersionOf(r), ProofFor(p, r).proof.value.signature, keys))
  {
    FindKeyFinds(keys, KeyIdOf(r));
  }

  /**
   * A record without a position or a digest has nothing to check; an unknown version gets no verdict; and
   * otherwise the digests, the signature and the chain are each judged by the columns they are kept in.
   */
  lemma CheckReads(p: Primitives, keys: seq<VerificationKey>, table: seq<Row>, r: Row)
    requires OnePerPosition(table)
    ensures CheckRecord(p, keys, table, r).None? <==> r.proofSequence.None? || r.proofDocumentHash.None?
    ensures CheckRecord(p, keys, table, r).Some? ==>
              var v := CheckRecord(p, keys, table, r).value;
              var document := CanonicalProof(p, FactsFor(r), VersionOf(r));
              && (v.unsupportedVersion <==> !WrittenUnder(r, "rift-consent-proof/1") && !WrittenUnder(r, "rift-consent-proof/2"))
              && (ProofFor(p, r).reassemblyMismatch <==> r.proofDocumentHash != Some(p.sha256(document)))
              && (!v.unsupportedVersion ==>
                    && v.integrity.Some? && v.signature.Some?
                    && (v.integrity == Some(IntegrityValid) <==>
                          && OrEmpty(r.proofHash) == p.sha256(CanonicalEvidence(p, EvidenceFor(r)))
                          && r.proofDocumentHash == Some(p.sha256(document)))
                    && SignedBy(p, keys, r, document, v.signature.value)
                    && v.chain == Some(if PrecedingDigest(table, r, r.proofPreviousHash) then ChainValid else ChainBroken))
  {
    if r.proofSequence.Some? && r.proofDocumentHash.Some? {
      assert WrittenUnder(r, VersionOf(r));
      ExpectedIsPreceding(table, r);
      if PrecedingDigest(table, r, r.proofPreviousHash) {
        OnePrecedingDigest(table, r, r.proofPreviousHash, ExpectedPrevious(table, r).value);
      }
      RecordIsSignedBy(p, keys, r);
    }
  }
}
