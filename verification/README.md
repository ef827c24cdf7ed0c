# Verification of the consent platform's decision logic

A Dafny project beside the Rift consent platform. It models the parts of the platform whose
correctness is hard to see by reading one function, and proves what they promise over all inputs,
all runs and all interleavings:

- **Consent evidence** (`ConsentProof`, `RecordChecks`, `ConsentLedger`, `LedgerOutcomes`): canonical receipts and proof documents, the
  hash-linked chain per principal, the optimistic retry loop that extends it, and what tampering
  leaves behind.
- **The legal reading** (`PolicyEngine`, `PolicyVerdicts`, `PolicyReading`, `Jurisdictions`): which rules reach a
  context, what each says by its own fields, how they combine into one verdict, and how the verdict moves when more is asserted or known.
- **Effective consent and what rests on it** (`EffectiveConsent`, `Transfers`, `TransferOutcomes`, `Firewall`,
  `Hosts`, `Catalogues`): the decision in force, single-use transfer authorisations, and the outbound guard.
- **Transactional state** (`PolicyVersions`, `VersionOutcomes`, `ConsentSessions`, `SessionOutcomes`,
  `ExperimentLifecycle`): approvals, capped sessions and experiment edits under interleaving.
- **Fast form against simple form** (`Crawl`, `Experiment`, `RateLimit`, `Robots`, `RobotsFile`,
  `AuditTrail`, `ScanDiff`, `ScanReport`, `Ssrf`, `SsrfReading`, `Ipv6`, `Ipv6Text`): batched search, bucket assignment, fixed windows,
  patterns as regular expressions, cut-before-merge, diffs as patches, masks as intervals, and prefixes
  of a text as blocks of addresses.
- `Sequences`, `Text` and `InsertionMaps` hold sorting, joining, trimming and ECMAScript's ordered map.

Code that updates state appears as methods and classes with loops, proved against functions; what the
source promises is then proved of those functions. Concurrent calls are state machines whose steps are
single database operations, guarded by the unique indexes and triggers the schema declares; the methods
of one call take what others do in between as an input. The modules named `Outcomes` say, over every
interleaving, exactly how each call ends.

Where the model is stricter or laxer than a comment in the source, it follows the code; the cases are
named under "Left out".

`dafny verify dfyconfig.toml` checks everything.

## Model

| member | source | states |
|---|---|---|
| ConsentProof.ReceiptDetermines | shared/consent-proof.ts:60-86 | Two receipts have the same text exactly when they cover the same evidence, up to null/empty, padding and list order, as soon as one of them keeps each field on one line |
| ConsentProof.ProofDetermines | shared/consent-signature.ts:144-173 | Two proof documents have the same text exactly when they carry the same version and bind the same facts; a /1 document is never a /2 document |
| ConsentProof.ListForgetsOrder | shared/consent-signature.ts:144-173 | Permuting jurisdictions or vendors changes neither canonical form |
| ConsentProof.ListDetermines | shared/consent-proof.ts:60-86 | Among lists of non-empty comma-free items the printed list is the list, up to order and padding, in both directions |
| ConsentProof.ReceiptsCollideAcrossLines | shared/consent-proof.ts:60-86 | Why one line per field is needed: whatever evidence has a line break in its principal shares its receipt with other evidence |
| ConsentProof.ListsCollide | shared/consent-proof.ts:60-86 | Why items must be non-empty and comma-free: `EU,IN` prints like two items and an empty item like none |
| ConsentProof.CheckIntegrity | shared/consent-signature.ts:325-375 | Integrity is valid exactly when both digests recompute; each mismatch is reported by its own finding |
| ConsentProof.VerifySignedProof | shared/consent-signature.ts:299-450 | A document that cannot be checked (no object, a field missing, an unknown version) gets one finding, which says why, and no verdict; any other gets three: integrity valid exactly when both digests recompute, signature valid exactly when it verifies with the first key of the ring under the id it names and that is not revoked, chain valid exactly when it names the predecessor expected; each verdict has its finding, and it passes exactly when none speaks against it |
| ConsentProof.FindKeyFinds | shared/consent-signature.ts:378-405 | The whole key ring is searched: a key is found exactly when one has the id, and then the first that has |
| ConsentProof.BuiltProofVerifies | shared/consent-signature.ts:221-262 | What is built passes: integrity valid, signature valid under the key ring that holds the signing key, unsigned without one |
| ConsentProof.ValidSignatureBinds | shared/consent-signature.ts:378-405 | A signature made over one document is reported valid on another exactly when that one binds the same facts under the same version |
| ConsentProof.HonestTableVerifies | api/lib/consent-proof.ts:78-130 | Every record of an honestly written table reassembles with no mismatch and checks as intact and in place under the version it was written with |
| ConsentProof.AlterationIsFlagged | api/lib/consent-proof.ts:61-130 | Replacing any non-final row by any row with whatever digests, unless it covers the very same contents, is reported by the check of that row or of the row after it |
| ConsentProof.RefreshedAlterationIsFlaggedIff | shared/consent-signature.ts:407-447 | An alteration that recomputes the row's own digests is reported somewhere exactly when a later row of the chain links to it |
| ConsentProof.DeletionIsFlaggedIff | shared/consent-signature.ts:407-447 | Deleting a row is reported by some remaining row's check exactly when it was not the last of its chain |
| ConsentProof.ReceiptReadsBack | shared/consent-proof.ts:60-86 | Cut at its line breaks, a receipt whose fields each keep to one line gives its twelve fields back in their order |
| ConsentProof.ProofReadsBack | shared/consent-signature.ts:144-173 | So does a proof document; version 1 has thirteen lines and leaves the experiment out |
| RecordChecks.RecordReadsBack | api/lib/consent-proof.ts:61-111 | The two texts recomputed for a stored record read, line by line, as its own columns |
| RecordChecks.BoundIsTheColumns | api/lib/consent-proof.ts:61-111 | The digests of two records cover the same contents exactly when the listed columns agree; the experiment counts only from version 2 on |
| RecordChecks.CheckReads | api/app/api/v1/consent/proof/verify/route.ts:92-130 | The check of a stored record by its columns: when there is nothing to check, when the version is unknown, and exactly when the digests match, who signed, and whether the preceding digest is the one on record |
| ConsentProof.IdealPrimitivesExist | shared/consent-signature.ts:176-180 | The assumptions made of the hash, the time printer and the signature scheme can all be met at once |
| ConsentLedger.MadeRowIsWrittenWell | database/consent.ts:545-610 | The row a writer builds reassembles into exactly the document it signed |
| ConsentLedger.PositionsAreOneToTop | database/consent.ts:522-642 | In an honest table a principal's taken positions are exactly 1 to the latest |
| ConsentLedger.HonestAppend | database/consent.ts:536-610 | Appending a row built on the latest position it read, at a position still free, keeps every chain honest |
| ConsentLedger.RunKeepsInv | database/consent.ts:403-651 | Every interleaving of principal creation, read, build, insert and retry by any number of writers keeps the table honest and each writer's view true |
| ConsentLedger.ChainsStayHonest | database/consent.ts:522-642 | After every interleaving each chain is numbered 1 to n, row 1 names no predecessor, row k+1 names row k's document hash, and every record passes its check |
| ConsentLedger.CommittedRowsNeverChange | database/consent.ts:585-610 | No later step changes a committed row |
| ConsentLedger.GivingUpNeedsTwelveOthers | database/consent.ts:536-642 | A call that gives up on contention was overtaken by twelve different calls for its principal, each committing at its own position after the call's first read |
| ConsentLedger.TwelveRacersNeverGiveUp | database/consent.ts:536-642 | With at most twelve calls racing for a principal none gives up on contention |
| ConsentLedger.RecordedExactlyOnce | database/consent.ts:585-642 | Successful calls and added rows correspond one to one, and each row carries its own call's decision |
| ConsentLedger.EveryCallFinishes | database/consent.ts:403-642 | Whatever the others do, a call is finished after at most 27 round trips of its own: three to find its principal and two for each of twelve attempts |
| ConsentLedger.TwelveRacersAreRecorded | database/consent.ts:536-642 | With at most twelve calls racing for a principal, each finished call that met no failure of another kind is recorded, in exactly one row, which carries its decision and no other call's |
| LedgerOutcomes.FailedIff | database/consent.ts:536-642 | After every interleaving: a call has failed exactly when an insert of its own failed otherwise than by losing a position; losing one it retries |
| LedgerOutcomes.UnresolvedIff | database/consent.ts:468-497 | A call cannot resolve its principal exactly when it is still missing on the second look, which takes a minted id that another principal has |
| LedgerOutcomes.RecordedIff | database/consent.ts:468-642 | With at most twelve racing, a finished call is recorded in a row of its own exactly when neither happened to it |
| LedgerOutcomes.EveryRacerIsRecorded | database/consent.ts:468-642 | With at most twelve racing, no failure and new ids, every call is recorded after twenty-seven steps of its own, whatever the others do |
| ConsentLedger.CompetitorTakesThePosition | database/consent.ts:612-630 | The unique index refuses a row exactly when somebody else extended the same chain since it was read |
| ConsentLedger.ConsentTable.Create | database/consent.ts:585-610 | A row enters only at a free (site, principal, position) under a new id; a refused insert changes nothing |
| ConsentLedger.Attempt | database/consent.ts:536-630 | One attempt writes the decision one past the latest position it read exactly when no competitor extended the chain meanwhile |
| ConsentLedger.RecordDecision | database/consent.ts:522-651 | The retry loop writes the decision once, in the first window no competitor used, and reports contention exactly after twelve contested windows, having changed nothing itself |
| Crawl.TakeLinks | crawler/src/crawl.ts:242-263 | Taking a page's links enqueues each new, shallow enough link once and in order, until the discovery bound stops it |
| Crawl.TakeBatch | crawler/src/crawl.ts:214-263 | A batch of any size leaves the frontier exactly where visiting its pages one at a time would |
| Crawl.CrawlSite | crawler/src/crawl.ts:184-272 | For every concurrency and every interruption the crawl equals the one-at-a-time search after as many visits as it has pages, stays within the page limit, takes full batches and none after an interruption, terminates, and reports the limit noted first: by the first batch that notes one, by the discovery bound, by what stopped it, or by the cookies |
| Crawl.PagesAreAtShortestDepth | crawler/src/crawl.ts:190-263 | Unless the discovery bound fired, every visited page is at its shortest link distance from the start |
| Crawl.EmptyQueueMeansComplete | crawler/src/crawl.ts:190-263 | When the queue ran dry and the bound never fired, the pages are exactly the URLs within maxDepth links, each once |
| Crawl.DiscoveryIsBounded | crawler/src/crawl.ts:242-263 | Discovered URLs never exceed max(1, 4 maxPages), and each is either visited or queued |
| Crawl.BoundFiresIff | crawler/src/crawl.ts:242-263 | The discovery bound fires exactly when a shallow enough link of a visited page is left behind, and only with four times as many URLs discovered as pages allowed |
| Crawl.SmallSitesAreNotCut | crawler/src/crawl.ts:184-272 | A site of at most four times as many reachable URLs as pages are allowed is never cut by the bound: the uninterrupted crawl visits all of it, or as many pages as are allowed |
| PolicyEngine.Contribute | policy/evaluate.ts:90-276 | One rule adds its own contribution to the shared record and disturbs nothing already there; what that contribution is `PolicyReading.ContributionReads` says by the rule's fields |
| PolicyEngine.SelectRules | policy/rules.ts:187-265 | Exactly the rules no filter excludes are selected, in id order, and each excluded id keeps the last reason recorded for it |
| PolicyEngine.SelectedMember | policy/rules.ts:187-265 | A rule is selected exactly when it is in the rule set and nothing excludes it |
| PolicyEngine.Evaluate | policy/evaluate.ts:281-399 | The decision is a function of the context and the rule set, which `PolicyReading.DecisionReads` and `PolicyReading.OutcomeReads` say by the rules' fields |
| PolicyVerdicts.OutcomeIs | policy/evaluate.ts:281-399 | The outcome read off the rules that reach the context: who permits, who obliges, who asks |
| PolicyVerdicts.AllowExactlyWhen | policy/evaluate.ts:340-385 | ALLOW exactly when some reaching rule permits and none obliges or asks |
| PolicyVerdicts.ReviewExactlyWhenAsked | policy/evaluate.ts:340-399 | REVIEW exactly when an open question is reported; BLOCK never, under the shipped topic table |
| PolicyVerdicts.OtherwiseMostSevereObligation | policy/evaluate.ts:320-412 | Any other outcome is the most severe obligation, and the first one listed |
| PolicyVerdicts.RuleUnderMoreAssertions | policy/evaluate.ts:73-235 | For one rule, asserting more keeps its obligations, removes questions, and gains a permission only in place of a question |
| PolicyVerdicts.AssertingMoreNeverRestricts | policy/evaluate.ts:73-399 | Asserting more conditions never makes the outcome more restrictive |
| PolicyVerdicts.WideningRelaxesIff | policy/rules.ts:187-265 | Adding jurisdictions or actor roles relaxes the outcome exactly when nothing was found before and something is found, and nothing asked, after |
| PolicyVerdicts.WideningNeverRelaxesAFinding | policy/evaluate.ts:281-399 | An outcome that rests on a finding only gets stricter as the context widens |
| PolicyVerdicts.RuleOrderIsIrrelevant | policy/rules.ts:187-265 | Permuting a rule set with distinct ids changes nothing in the decision |
| PolicyReading.ContributionReads | policy/evaluate.ts:90-276 | What a rule owes, exempts and asks, by what it records about children, consent and opt-out and by its topic: each verdict owed exactly once under its own condition with exactly the conditions nobody asserted, each question exactly under its own |
| PolicyReading.ReachedIffReaches | policy/rules.ts:187-265 | A rule reaches a context exactly when it meets it in every dimension it is limited in |
| PolicyReading.ExcludedForTheFirstMiss | policy/rules.ts:187-265 | The reason recorded for a rule left out is the first dimension in which it misses |
| PolicyReading.ExcludedMapIs | policy/rules.ts:187-265 | An id is recorded exactly when a rule under it is left out, with the reason of the last such rule |
| PolicyReading.DecisionReads | policy/evaluate.ts:281-399 | A decision lists exactly the obligations, permissions and questions that the rules reaching the context owe, give and leave open, and an uncited question exactly where no jurisdiction was given or nothing was found |
| PolicyReading.OutcomeReads | policy/evaluate.ts:320-399 | The outcome of every decision by the rules' fields: REVIEW where any question is open, else the severest verdict owed, else ALLOW where a rule exempts, else REVIEW |
| PolicyReading.AdulthoodIsNotAssumed | policy/evaluate.ts:126-180 | An applying children's rule leaves the decision open, and says so, unless the subject is stated to be no child |
| PolicyReading.DecisionIsOrdered | policy/evaluate.ts:383-412 | Rules come by id as often as they are in the set, obligations by severity and id, regimes and assertions once each in order |
| Jurisdictions.ResolveJurisdictions | policy/resolve.ts:152-310 | The jurisdictions are the union of everything observed and asserted, each with its best support; the reasons are exactly those observations and assertions give, a rejected, unrecognised or unmapped region included; weak support and disagreement remove nothing |
| Jurisdictions.RegimesFor | policy/resolve.ts:124-145 | A regime is reported as derived exactly when every rule of it that reaches the jurisdictions is derived |
| Jurisdictions.Conflicting | policy/resolve.ts:268-287 | Signals are reported as conflicting exactly when two that map to something map to different sets |
| Jurisdictions.SetTextMeans | policy/resolve.ts:268-287 | Sets of comma-free names compare as text exactly as they compare as sets with repetitions |
| Jurisdictions.DecisionCitesReportedRegimes | policy/resolve.ts:322-334 | The evaluator never cites a regime the resolver does not report; without derived models only regimes a statute holds up |
| Jurisdictions.ResolveContext | policy/resolve.ts:322-334 | The evaluator decides on exactly the jurisdictions resolved, and an empty answer becomes REVIEW |
| Jurisdictions.KnowingMoreRelaxesIff | policy/resolve.ts:152-334 | More observations never drop a jurisdiction, and relax the reading exactly in the nothing-found-before case |
| Jurisdictions.SignalOrderIsIrrelevant | policy/resolve.ts:152-310 | The order of observations changes neither the jurisdictions, their support nor the conflict flag |
| EffectiveConsent.ResolveEffectiveConsent | shared/consent.ts:155-177 | One entry per decided purpose, in purpose order, each the decision in force |
| EffectiveConsent.InForceIsGreatest | shared/consent.ts:155-187 | The decision in force is the greatest record of its purpose under decision time, storage time and id |
| EffectiveConsent.InForceIsLatest | shared/consent.ts:155-187 | The decision in force is the one decided last, of those the one stored last, of those the one with the greatest id |
| EffectiveConsent.LogOrderIsIrrelevant | shared/consent.ts:155-187 | Every ordering of one log resolves to the same answer |
| EffectiveConsent.IsPurposeGranted | shared/consent.ts:194-200 | A purpose is granted exactly when its listed decision is a grant; no decision is no permission |
| EffectiveConsent.PurposeGranted | shared/consent.ts:155-200 | Resolving a log and asking for a purpose answers yes exactly when the greatest record of that purpose is a grant |
| EffectiveConsent.GrantedIffListed | shared/consent.ts:194-200 | The resolved list lists a grant exactly when the decision in force is one |
| EffectiveConsent.GrantedIffGreatestGrants | shared/consent.ts:155-200 | A purpose is granted exactly when its greatest record is a grant |
| EffectiveConsent.EffectiveByPrincipal | database/experiment-analytics.ts:53-61 | The nested table holds, per principal and purpose, exactly what the last row for them says |
| EffectiveConsent.OverwritingTheSortedLogIsInForce | database/experiment-analytics.ts:53-61 | Overwriting row by row down the sorted log leaves the very status the resolver finds: the two derivations agree |
| EffectiveConsent.MetricsFor | database/experiment-analytics.ts:63-105 | Accepted, rejected and partial count the people with only grants, only refusals and both, and add up to everyone who decided |
| Transfers.EvaluateAuthorisation | database/authorisation.ts:55-143 | With record ids unique each answer is given exactly under its own condition: a refusal for the first thing unknown, for no decision, or for the status of the one decision that stands; a permission exactly when that is a grant |
| Transfers.RulingIs | database/authorisation.ts:55-143 | The same of the ruling a call takes in any interleaving, by the decision of this person on this purpose that none of theirs outranks |
| Transfers.PermittedMeansJustified | database/authorisation.ts:95-143 | A permission cites a grant of that site, principal and purpose that nothing in the log outranks |
| Transfers.AuthoriseTransfer | database/transfers.ts:217-264 | A permission is minted exactly when site, person and purpose are known, the decision that stands is a grant, the recipient is active and the nonce is new; it cites that decision, and a refusal says which of these failed |
| Transfers.RecordTransfer | database/transfers.ts:295-387 | Each outcome exactly under its own condition: refused for shape or size, not found under id, organisation and nonce, used up, too late, or stored, and the authorisation consumed with it, exactly when it is still AUTHORISED at the write |
| Transfers.CollectTransfer | database/transfers.ts:405-444 | An envelope goes only to the recipient its authorisation names; a racing second first-collection fails because the delivery time is written once |
| Transfers.Database.CreateAndConsume | database/transfers.ts:343-372 | Insert and status change happen together or not at all |
| Transfers.CommitGoesThroughIff | database/README.md:73-95 | Unique index and forward-only trigger together amount to one test: the commit succeeds exactly while the authorisation is AUTHORISED |
| Transfers.RunKeepsInv | database/transfers.ts:217-444 | Every interleaving of authorise, record, collect, consent decisions and time keeps the tables well formed, each authorisation minted by one call, and every call's view of the log it read true |
| Transfers.SingleUse | database/transfers.ts:295-387 | An authorisation has at most one transfer and is CONSUMED exactly when it has one |
| Transfers.HistoryOnlyMovesForwards | database/README.md:73-95 | CONSUMED and EXPIRED are final, what was authorised and sealed is never rewritten, and a delivered transfer never changes |
| Transfers.EveryAuthorisationIsJustified | database/transfers.ts:217-264 | Every authorisation was minted by exactly one call and cites the record that was the effective GRANTED decision of the log as that call read it, at some moment between its arrival and the minting; EXPIRED only once its time has passed |
| Transfers.NothingKnownOutranksTheGrant | database/authorisation.ts:95-143 | No decision on record when the call arrived, a withdrawal included, outranks the grant its authorisation cites |
| Transfers.AcceptedExactlyOnce | database/transfers.ts:343-387 | Accepted submissions and transfers correspond one to one, each transfer holding its submission's envelope |
| Transfers.CollectedMeansAuthorised | database/transfers.ts:405-444 | What a recipient collects is the envelope one call submitted before expiry, under an authorisation naming that recipient which one call minted on the grant that was effective when it read the log |
| TransferOutcomes.EndsAsAnswered | database/transfers.ts:217-264 | After every interleaving an authorising call was let on exactly when log and directory allowed it as it asked, minted exactly when its nonce was free as it tried, and was denied for each reason exactly when that was so |
| TransferOutcomes.MintedUnlessRefused | database/transfers.ts:217-264 | Two steps of its own are enough for either |
| TransferOutcomes.LookStep | database/transfers.ts:305-345 | What a submission finds, each outcome exactly under its own condition |
| TransferOutcomes.CommitStep | database/transfers.ts:346-372 | It is stored exactly while the authorisation is AUTHORISED, and otherwise nothing is written |
| TransferOutcomes.ExpireStep | database/transfers.ts:343-355 | One found too late is marked expired, unless it was consumed meanwhile; then the trigger refuses and nothing is written |
| TransferOutcomes.FetchStep | database/transfers.ts:405-425 | A collector holds the envelope exactly when it exists and its authorisation names that recipient |
| TransferOutcomes.HandOverStep | database/transfers.ts:405-444 | A collection is handed over unless the row it must mark refuses; a later one writes nothing |
| PolicyVersions.CommitsIff | database/consent-policy.ts:129-169 | An approval commits exactly when no other approval of its site committed since it read; otherwise it changes nothing |
| PolicyVersions.RunKeepsInv | database/consent-policy.ts:129-169 | Every interleaving of approvals with rollback keeps versions contiguous and the highest one approved |
| PolicyVersions.VersionsAreOneToHighest | database/consent-policy.ts:129-169 | A site's versions are exactly 1 to n, each once, and exactly the highest is approved once any approval committed |
| PolicyVersions.EveryVersionHasItsApproval | database/consent-policy.ts:129-169 | Successful approvals and versions correspond one to one |
| PolicyVersions.ApprovedContentIsImmutable | database/consent-policy.ts:129-169 | A version keeps its number and content for ever, and superseded is final |
| PolicyVersions.ApprovePolicyVersion | database/consent-policy.ts:105-169 | The approval succeeds exactly when nobody else approved meanwhile, and a losing one leaves the table as the others left it |
| VersionOutcomes.EndsAsTheRaceDid | database/consent-policy.ts:129-169 | After every interleaving an approval conflicts exactly when another of its site committed between its read and its insert, and commits exactly when none did |
| VersionOutcomes.TurnedAwayIff | database/consent-policy.ts:117-127 | It is turned away for its site exactly when that is not its organisation's |
| VersionOutcomes.ApprovesUnlessOvertaken | database/consent-policy.ts:117-169 | Three steps of its own are enough: it has committed unless it was overtaken |
| ConsentSessions.SessionTable.Resolve | database/consent-sessions.ts:225-276 | Only a live session of this very site, unexpired and below its cap, is resolved |
| ConsentSessions.SessionTable.Consume | database/consent-sessions.ts:286-299 | One decision is charged, and only at the count that was read |
| ConsentSessions.RunKeepsInv | database/consent-sessions.ts:225-299 | Every interleaving of requests, revocation, purging and time keeps counts capped and charges numbered |
| ConsentSessions.ChargesAreCountedAndCapped | database/consent-sessions.ts:286-299 | Successful charges on a session are exactly as many as its count, which never passes its cap |
| ConsentSessions.SameReadChargedOnce | database/consent-sessions.ts:286-299 | Of all requests that read the same count at most one is charged |
| ConsentSessions.LogNeverExceedsTheCap | api/app/api/v1/consent/route.ts:120-195 | A session never puts more decisions in the log than its cap, and only its own principal's on its own site |
| SessionOutcomes.ResolutionIs | database/consent-sessions.ts:225-276 | What a token resolves to, by the row that carries it: invalid, expired, exhausted or let in, each exactly under its own condition |
| SessionOutcomes.PurgingRefusesNobody | database/consent-sessions.ts:301-316 | Removing what has expired lets in exactly whom it would have let in anyway |
| SessionOutcomes.ChargedIff | database/consent-sessions.ts:286-299 | After every interleaving a request is charged exactly when it tried while its session was its own person's, live, and at the count it had read |
| SessionOutcomes.LoggedUnlessRefused | api/app/api/v1/consent/route.ts:120-195 | After three steps of its own its decision is in the log exactly then |
| SessionOutcomes.StepOnRow | database/consent-sessions.ts:286-316 | A step changes a session only by a revocation, by a purge past its expiry, or by one charge of a request that may make it |
| SessionOutcomes.RevocationIsFinal | database/consent-sessions.ts:280-299 | Once revoked a session is never charged again, by no request that resolved it earlier either |
| Experiment.ValidateVariants | shared/experiment.ts:168-239 | Every fault is reported and nothing else: too few, an unreadable or repeated key, no name, a percentage out of range, copy that is unknown, no text, too long or blanked, a wrong total, not one control; nothing exactly for a well-formed set |
| Experiment.ValidateText | shared/experiment.ts:242-283 | Every fault of the copy is reported and nothing else; none exactly when every field is one of the six, is text of at most 400 characters, and the reject and manage controls are not blanked |
| Experiment.Hash | shared/experiment.ts:295-302 | The 32-bit FNV-1a of the UTF-16 code units, wrap-around included |
| Experiment.KnownDigests | shared/experiment.ts:295-302 | Two digests every 32-bit FNV-1a gives |
| Experiment.AssignVariant | shared/experiment.ts:323-345 | The arm of the browser's bucket; none exactly for no variants, no browser key or allocations that do not sum to 100 |
| Experiment.StoredOrderIsIrrelevant | shared/experiment.ts:323-345 | The order the arms are stored in cannot reassign anybody |
| Experiment.EachArmOwnsItsAllocation | shared/experiment.ts:323-345 | Of the 100 buckets each arm of a validated experiment owns exactly its allocation, and every bucket is owned |
| Experiment.ArmLiesAfterThoseBefore | shared/experiment.ts:323-345 | And which: from where the arms before it in the order of keys end |
| ExperimentLifecycle.RunningFixesEveryArm | api/lib/experiments.ts:148-166 | Requests handled one at a time: from the first moment an experiment runs its variants are fixed and every browser keeps its arm |
| ExperimentLifecycle.VariantsAreFixedIff | database/experiments.ts:181-256 | With overlapping requests the variants are fixed from then on exactly when no write let through before is still to come that changes them or steps the experiment back; otherwise some continuation changes them |
| ExperimentLifecycle.AnEditOvertakenByTheStart | api/lib/experiments.ts:148-166 | It does happen: an edit let through on the draft and committed after the start changes the variants of a running experiment |
| ExperimentLifecycle.AStepBackOvertakenByTheStart | database/experiments.ts:181-256 | So does a step back let through before the start: an experiment that ran is a draft again |
| ExperimentLifecycle.TransitionsEnter | shared/experiment.ts:68-75 | From where each status is entered |
| ExperimentLifecycle.HandledAlone | api/lib/experiments.ts:100-166 | A request handled alone leaves the row as asked for exactly where it may be, and otherwise as it was |
| ExperimentLifecycle.LetThroughIff | api/lib/experiments.ts:148-166 | With overlapping requests each is let through exactly when the row it was checked on allows it |
| RateLimit.Limiter.CheckRateLimit | api/lib/rate-limit.ts:102-130 | The verdict and the key's new window are given by its old window alone; no other window changes, and one goes missing only when a window opens in a full table, a live one only beside 50,000 live ones |
| RateLimit.EvictExpired | api/lib/rate-limit.ts:136-150 | With fewer than 50,000 live windows exactly the live ones stay; otherwise 25,000 live ones stay, and none was set before a live one that goes; what stays keeps its order |
| RateLimit.TableIsBounded | api/lib/rate-limit.ts:102-150 | The table never exceeds 50,000 windows, however many keys a flood cycles through |
| RateLimit.DroppedOnlyInAFlood | api/lib/rate-limit.ts:136-150 | A live window is dropped only when 50,000 are live, and never that of the key being checked |
| RateLimit.SharedAgreesWithAlone | api/lib/rate-limit.ts:102-150 | For a key whose live windows no flood dropped the shared table answers as a private window would |
| RateLimit.WindowLetsTheLimitThrough | api/lib/rate-limit.ts:102-130 | Within a window exactly the first hits get through, as many as the limit, or one where the limit is less than one |
| RateLimit.AtMostTwiceTheLimit | api/lib/rate-limit.ts:90-130 | In any half-open span as long as the window at most twice the limit gets through |
| RateLimit.WaitingIsEnough | api/lib/rate-limit.ts:102-134 | A refused caller that waits the seconds it is told is let through, whoever else calls meanwhile |
| Robots.PatternToRegex | crawler/src/robots.ts:116-124 | The loop builds the escaped expression text the lemmas below interpret |
| Robots.TranslationPreservesMeaning | crawler/src/robots.ts:116-124 | Read back as a regular expression the text matches a path exactly when the pattern fits it, stars staying within a line |
| Robots.AgreesWithTheStandardIff | crawler/src/robots.ts:116-124 | For every pattern with no `$` before its end the match is the one section 2.2.3 of RFC 9309 means, exactly when the path has no line terminator |
| Robots.DollarReadAlikeIff | crawler/src/robots.ts:116-124 | Line terminators aside, a pattern is read as that section reads it, on every path, exactly when no `$` stands before its end |
| Robots.IsAllowed | crawler/src/robots.ts:133-147 | Allowed exactly when nothing applies or an Allow is among the longest rules that do, as in section 2.2.2 of RFC 9309 |
| Robots.DisallowedMeans | crawler/src/robots.ts:133-147 | Disallowed exactly when a Disallow is the longest that applies and every applying Allow is shorter |
| Robots.RuleOrderIsIrrelevant | crawler/src/robots.ts:133-147 | The order of the rules never matters |
| RobotsFile.ParseRobots | crawler/src/robots.ts:55-113 | The first group that names us decides, failing that the first wildcard group, failing that nothing is forbidden |
| RobotsFile.NamesUsMeans | crawler/src/robots.ts:100-113 | A group names us exactly when one of its names other than `*` is part of our own |
| RobotsFile.FieldIsRead | crawler/src/robots.ts:64-71 | A name, a colon and a value are read, in whatever white space and with whatever comment behind; the name in lower case |
| RobotsFile.NothingRead | crawler/src/robots.ts:64-69 | A line with nothing before its comment, or no colon there, says nothing |
| RobotsFile.AgentLineIs | crawler/src/robots.ts:73-82 | An agent joins the group just opened, or opens one |
| RobotsFile.RuleLineIs | crawler/src/robots.ts:84-91 | A rule with a path goes to the group last opened, if there is one, and ends the run of agents |
| RobotsFile.OtherLineIs | crawler/src/robots.ts:84-97 | A readable delay and a sitemap are kept once there is a group; any other field only ends the run of agents |
| RobotsFile.WrittenReadsBack | crawler/src/robots.ts:55-98 | Groups written out as lines read back as themselves, a group without rules running into the next |
| RobotsFile.RoundTripIff | crawler/src/robots.ts:73-82 | The round trip is exact precisely when every group but the last has a rule |
| RobotsFile.ChosenIsMostSpecificIff | crawler/src/robots.ts:100-105 | For every file read: where some group names us the first that does decides, and it names us by a longest name exactly when no later group names us by a longer one |
| RobotsFile.FirstBeatsMoreSpecific | crawler/src/robots.ts:100-105 | In every file read where the first group that names us does so by shorter names only than a later one, the first decides and is not the most specific |
| RobotsFile.ShorterNameDecides | crawler/src/robots.ts:100-105 | So in every file of two groups, of one name each, that names us by the shorter first, whatever the rules of either |
| RobotsFile.SuchAFile | crawler/src/robots.ts:100-105 | Four lines that open everything to `bot` and close everything to `riftbot` leave our agent free |
| RobotsFile.CombiningAgreesIff | crawler/src/robots.ts:100-105 | Against section 2.2.1 of RFC 9309, which combines all groups that speak to us: on a path both give the same verdict exactly when no rule of a later such group overturns the first group's |
| Robots.MoreRulesShowIff | crawler/src/robots.ts:133-147 | Adding rules changes the verdict exactly when one of them is a Disallow longer than every Allow that applies, or an Allow as long as every Disallow that applies |
| Hosts.NormaliseMeans | shared/consent-firewall.ts:58-61 | Of a trimmed host in lower case one dot is taken off, exactly when it ends in one |
| Hosts.MatchesMeans | shared/consent-firewall.ts:58-63 | A host matches a pattern exactly when taking labels off its front, or none, leaves the pattern, which is not empty |
| Hosts.MatchedIffTried | shared/consent-firewall.ts:58-63 | Suffix matching accepts a dotted name exactly when label-by-label lookup tries it |
| Hosts.ClassifyHost | database/tracker-catalogue.ts:149-170 | The longest catalogue key the host is under is found; none exactly when none matches |
| Hosts.EnforcementFrom | api/lib/consent-config.ts:239-274 | The rules are those of every recommendation to act, sorted by host |
| Hosts.RuleExistsIff | api/lib/consent-config.ts:250-263 | A rule exists exactly when some recommendation to allow, gate or block names a vendor known by its host |
| Hosts.EnforcementIs | api/lib/consent-config.ts:239-274 | The rules handed out are all that some recommendation yields and no other, in the order of their hosts |
| Hosts.FirstIsLongestIff | shared/consent-firewall.ts:112-114 | Alphabetical first match agrees with longest match on every host exactly when every nested host sorts before the one it is nested in |
| Hosts.EnforcementFollowsClassification | database/tracker-catalogue.ts:176-198 | With a rule for every vendor of a catalogue whose nested keys sort first, enforcement and classification name the same vendor for every host |
| Hosts.ActingOnEveryVendorCovers | database/tracker-catalogue.ts:190-198 | Recommendations that act on every vendor do cover the catalogue |
| Catalogues.ShippedIsWellKeyed | database/tracker-catalogue.ts:47-124 | The 63 keys of the shipped catalogue are written as they are looked up |
| Catalogues.ShippedNestings | database/tracker-catalogue.ts:47-124 | Which keys lie under which: exactly four do, each under its own parent, and `analytics.google.com` under none |
| Catalogues.ShippedNestsFirst | api/lib/consent-config.ts:239-274 | Among rules for shipped keys every nested host sorts before the one it is nested in |
| Catalogues.ShippedEnforcementFollowsClassification | database/tracker-catalogue.ts:149-198 | With the shipped keys and a recommendation that acts on every vendor, enforcement and classification name the same vendor for every host |
| Firewall.Decide | shared/consent-firewall.ts:96-187 | The first matching rule decides; a gate passes exactly when it names a granted purpose; unmatched hosts follow the policy |
| Firewall.EvaluateFirewall | shared/consent-firewall.ts:295-436 | The core is never reversed except to block a gate nobody's consent can be read for; an unmatched host is REVIEW and never ALLOW; classification, severity and evidence exactly characterised by the rule and the purposes granted and decided |
| Firewall.LoadContext | api/lib/firewall.ts:104-156 | The granted and decided sets are exactly the purposes whose decision in force grants, or exists |
| Firewall.GuardOutboundRequest | api/lib/firewall.ts:165-238 | A request goes, as redacted, exactly when its redaction was accepted and complete and the decision lets it |
| Firewall.GatedRequestNeedsGreatestGrant | api/lib/firewall.ts:104-238 | Under a consent gate a request goes exactly when the principal is known and the greatest record of the gate's purpose is a grant |
| AuditTrail.GetAuditTrail | database/audit.ts:28-140 | The trail is in order (newest first, causal ties), as long as the limit lets it be, made of entries of the pages, and leaves out nothing that precedes anything it keeps |
| AuditTrail.EarlyCutDoesNotShow | database/audit.ts:48-140 | Keeping the newest rows of each log before merging gives the same times and kinds as merging the whole logs, however a log breaks ties at its own cut |
| ScanDiff.FingerprintInjective | crawler/src/diff.ts:192-195 | One namespace covers every kind without collisions |
| ScanDiff.FieldsByKind | crawler/src/diff.ts:122-188 | What of each kind is compared |
| ScanDiff.DiffCollection | crawler/src/diff.ts:209-283 | The entries of one collection: what is there now, then what is gone, the first of duplicates counting |
| ScanDiff.OneEntryPerIdentity | crawler/src/diff.ts:209-283 | Each identity seen in either scan has exactly one entry; new and removed mean exactly absent before and absent after |
| ScanDiff.EntryReads | crawler/src/diff.ts:209-283 | What an entry says, by the first item either scan has under its key: changed exactly when a field of its kind differs, with those fields, in order and once each, and their values on either side |
| ScanDiff.CountsAddUp | crawler/src/diff.ts:285-289 | New, changed and unchanged count the later scan's identities; removed, changed and unchanged the earlier one's |
| ScanDiff.SwapMirrors | crawler/src/diff.ts:209-283 | Comparing the other way round turns new into removed and before into after, entry by entry |
| ScanDiff.DiffIsAPatch | crawler/src/diff.ts:209-283 | Applying the entries to what the earlier scan saw gives exactly what the later one saw |
| ScanDiff.Tally | crawler/src/diff.ts:285-289 | The four counters count their statuses and add up to all entries |
| ScanReport.DiffScans | crawler/src/diff.ts:304-339 | Counts by kind are those of each collection, and the totals are their sum and count the entries reported |
| ScanReport.ReportHasOneEntryEach | crawler/src/diff.ts:304-332 | Across all five kinds every resource has exactly one entry, in a fixed order |
| ScanReport.ReportIsOrdered | crawler/src/diff.ts:304-332 | What is new comes first, then what changed, what is gone and what stayed, each in the order of fingerprints |
| ScanReport.ObservationOrderIsIrrelevant | crawler/src/diff.ts:291-332 | Every order of observing two scans gives the same report, where duplicates agree as far as they can be seen |
| ScanReport.OrderIsIrrelevantIff | crawler/src/diff.ts:209-332 | For scans as the descriptors present them no order shows exactly when items of one identity are equal in the later scan and, in the earlier one, agree in material, and in title where the identity is gone later |
| ScanReport.CookiesOfOneIdentityShow | crawler/src/diff.ts:115-135 | Two cookies whose names differ in case alone share an identity, and which was seen first shows in the report |
| ScanReport.DisagreeingDuplicatesShow | crawler/src/diff.ts:115-135 | Such cookies exist: `_GA` and `_ga` |
| ScanReport.SameCookieIff | crawler/src/diff.ts:115-135 | Two cookies are the same exactly when name, domain and path are, case and padding aside, where no bar is in name or domain |
| ScanReport.SameMaterialIff | crawler/src/diff.ts:122-135 | And unchanged exactly when its flags, its policy on other sites and whether it outlives the session are |
| Ssrf.Ipv4ToInt | crawler/src/ssrf.ts:144-156 | Four octets of one to three digits, or nothing |
| Ssrf.LeadingZeroIsRead | crawler/src/ssrf.ts:148-152 | A leading zero changes neither whether a part is read nor as what; `01` reads as one |
| Ssrf.IsBlockedIpv4 | crawler/src/ssrf.ts:158-168 | Blocked exactly when unreadable or inside a range of the table |
| Ssrf.MaskLeavesLastOffset | crawler/src/ssrf.ts:158-168 | For every prefix length from 0 to 32 the mask leaves free exactly the offsets within a range of that length |
| Ssrf.NearMeansAgreeing | crawler/src/ssrf.ts:158-168 | Lying no further past the network than the bits left free reach is agreeing with it under the mask (`AgreeingMeansNear` is the converse) |
| Ssrf.TableIsIntervals | crawler/src/ssrf.ts:127-168 | The 32-bit masks amount exactly to the reserved intervals of octets |
| Ssrf.EmbeddedIff | crawler/src/ssrf.ts:175-178 | The expression captures an IPv4 address exactly when the text ends in it, dotted, after `::` or `::ffff:` |
| Ssrf.DottedFaresAlike | crawler/src/ssrf.ts:170-178 | An IPv6 text that ends in a dotted IPv4 address directly after `::` or `::ffff:` is judged as that address would be, whatever stands before these |
| Ssrf.OthersAreJudgedByPrefix | crawler/src/ssrf.ts:170-190 | Every other IPv6 text is judged by how it begins and by that alone |
| Ssrf.CheckUrlShape | crawler/src/ssrf.ts:216-254 | A URL passes exactly when its length, scheme, credentials, port and host name are all acceptable and a literal host is an acceptable address; otherwise the first fault is reported |
| Ssrf.AssertNavigable | crawler/src/ssrf.ts:271-334 | Navigable exactly when the shape passes and the host is a literal or resolves to at least one address, all of them acceptable; what is handed on is the literal itself or exactly what was resolved, every address acceptable |
| SsrfReading.BlockedByItsOctets | crawler/src/ssrf.ts:127-168 | A text is refused as an IPv4 address exactly when it is not four octets between dots or the first three, in the order written, are reserved |
| SsrfReading.ZoneIsDropped | crawler/src/ssrf.ts:170-171 | Nothing after the first `%` takes part in the judgement of an IPv6 text |
| SsrfReading.UnwrappedMeans | crawler/src/ssrf.ts:242-242 | One bracket is taken off at either end of a host, where there is one, and no more |
| SsrfReading.NameIsBlockedIff | crawler/src/ssrf.ts:199-209 | A name is refused unresolved exactly when it is one of the six listed, ends in one of the nine endings, or is a single label and no address |
| Ipv6.EmbeddedFaresAlikeIff | crawler/src/ssrf.ts:170-190 | In whatever writing, an address that holds an IPv4 address, mapped or compatible, is judged as that address would be exactly when the text ends in it, dotted, directly after `::` or `::ffff:`, or is `::` or `::1`, or the IPv4 address is not reserved |
| Ipv6.MappedFaresAlikeIff | crawler/src/ssrf.ts:175-178 | So for every writing of a mapped address: judged as its IPv4 address exactly when a dotted ending is captured or that address is not reserved |
| Ipv6.OnlyAllElidedIsJudged | crawler/src/ssrf.ts:175-178 | Of the six dotted writings of a mapped address, with none to five of its zero groups written out, only the one that elides them all is judged as its IPv4 address; the others are let through |
| Ipv6.HexadecimalIsLetThrough | crawler/src/ssrf.ts:170-190 | With its last two groups in hexadecimal a mapped address is let through, whatever it maps |
| Ipv6.LoopbackInFull | crawler/src/ssrf.ts:170-190 | One such input: `0:0:0:0:0:ffff:127.0.0.1` |
| Ipv6.LoopbackInHexadecimal | crawler/src/ssrf.ts:170-190 | Another: `::ffff:7f00:1` |
| Ipv6.PrefixesAmountTo | crawler/src/ssrf.ts:180-190 | The prefixes show exactly the link-local, unique local, multicast, documentation and NAT64 blocks, but for fe81 to fe8f and groups written `0db8` or with a zero before `64`, which they miss, and short first groups or a second one from db80 to db8f, which they show in excess |
| Ipv6.BlocksAreKeptIff | crawler/src/ssrf.ts:170-190 | Every address that holds no IPv4 address is blocked just when it lies in one of these blocks, exactly when the prefixes neither miss it nor show it in excess, or, where a dotted ending is captured, when that ending is reserved just when the address is |
| Ipv6.LinkLocalMissed | crawler/src/ssrf.ts:180-182 | All of `fe81::` to `fe8f::` with one more group lie in the link-local block and are let through |
| Ipv6Text.LeadingGroups | crawler/src/ssrf.ts:180-188 | The first two groups of an address are those written first, or zero where the elision stands |
| Ipv6Text.DottedEndingIsLast | crawler/src/ssrf.ts:175-178 | A dotted ending is the last two groups, whatever is elided |

## Left out

- Reference data: the checks of `recordConsentDecision` that purpose, notice and policy exist, and every other lookup by id or tenant except where a proof needs it, are read from a fixed directory.
- SHA-256, Ed25519 and ISO 8601 printing are parameters; what is assumed of them is stated and shown to be satisfiable. Sealed envelopes, AES-GCM and key derivation are not opened up.
- Row ids are positions in their tables where nothing depends on their text; that generated ids, tokens and secrets are unguessable is not modelled.
- Timestamps are integers: unparseable dates, and the rounding of stored instants, are not modelled except where the source treats them as absent.
- Text is a sequence of characters: lengths, comparisons and hashing agree with UTF-16 code units outside the supplementary planes, lower-casing is ASCII, and `localeCompare` and database collation are the plain order. `Experiment.Hash` works on code units directly.
- Human-readable reasons, summaries, messages, metadata and evidence wording; only their kinds are kept where a property turns on them.
- Offboarding deletes, the constant-time digest comparison of `verifyProof`, HTTP transport, CORS, cookies, rate-limit headers and all other I/O.
- Rendering pages, fetching robots.txt, sleeping, cookies and storage seen by a crawl; a page is a fixed function from its URL to its accepted links, and which limit a batch notes first while it is visited is an oracle.
- Splitting robots.txt into lines, and how `Crawl-delay` numbers are read (an oracle giving whole seconds); per-line order of sitemaps before the first group is kept as the source has it (they are dropped).
- How a region text reads and what a region maps to (`Jurisdictions`): oracles, so every mapping is covered.
- The concrete regulation matrix: every rule set is covered, only the topic table is the shipped one.
- Redaction: an oracle that refuses, rejects or returns a request. URL parsing gives the parts of a URL.
- What the tracker catalogue says about a vendor: every vendor, category and country is covered, only the keys are the shipped ones.
- Experiment lifecycle: what else is true of the site (approved policy, another running experiment) is an input of each request; names, dates and descriptions are not part of the row.
- `effectiveByPrincipal` feeds the experiment and policy-version reports; the per-purpose counters and rates, and the significance test, are not part of the model.
- Overrides, rights requests, first-use binding of principal secrets, opening a session, scan persistence, the consent graph, quality scores and the dashboards: easy, heuristic or presentational.
- ConsentSessions.LogNeverExceedsTheCap: a charge may follow the session's expiry, because the conditional update does not look at it; what is proved is the cap, not the expiry.
- Transfers.CollectedMeansAuthorised: expiry and consent are as the calls read them; a commit may follow the expiry or a withdrawal that came after its check, and the source does not promise otherwise.
- Firewall.GatedRequestNeedsGreatestGrant: about the log the guard read; a withdrawal recorded after that read is not seen.
- RobotsFile.FirstBeatsMoreSpecific: the source's comment promises the most specific group; the code takes the first that names us, and the model follows the code. `ChosenIsMostSpecificIff` says when the two are the same.
- RobotsFile.CombiningAgreesIff: the code does not combine groups that name the same agent, as section 2.2.1 of RFC 9309 asks. Which groups name us is as in the code, by part of the name.
- Ssrf.Ipv4ToInt: the source's comment says `01` is refused; its pattern accepts it as 1, and the model follows the code. Telling an IP literal from a name is an oracle.
- Ipv6.MappedFaresAlikeIff: the source's comment says IPv4-mapped and IPv4-compatible addresses are judged by the IPv4 rules; its expression reads a dotted ending directly after `::` or `::ffff:` alone, and the model follows the code. `EmbeddedFaresAlikeIff` says for which writings that is the same.
- Ipv6.BlocksAreKeptIff: the source's comments name the blocks fe80::/10, fc00::/7 and ff00::/8; its prefixes part from them as `PrefixesAmountTo` says, and the model follows the code. NAT64 is taken as 64:ff9b::/32, the two groups the prefix names.
- ScanReport.ObservationOrderIsIrrelevant: the source promises order independence outright; `OrderIsIrrelevantIff` says exactly when it holds, and `DisagreeingDuplicatesShow` gives two cookies for which it does not.
- Robots.AgreesWithTheStandardIff: where a path has a line terminator or a pattern a `$` before its end, the code and RFC 9309 differ. The source asks only about the path and query of a parsed URL, which have no line terminators.
