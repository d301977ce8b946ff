# Registry ledger, exits and announcements: a verified model

The registry keeps an append-only, hash-chained ledger of usage and revenue batches, seals each day with a
checkpoint, proves membership with Merkle trees, and runs several state machines on top: reviews of operator
exits, final allocations of the money they are due, an announcement chain with a paged feed, and an integrity
gate in front of every request.  This project models that logic in Dafny 4.11 and proves what it promises.
`dafny verify dfyconfig.toml` checks everything.

## How it is modelled

* A committed transaction is one step.  Tables are sequences in primary-key order, or maps.  Unique keys and
  check constraints of the tables are part of the steps.  Where the code works step by step on its tables, a
  class does the same, and each method is proved against a function of the old tables; theorems about whole
  runs are about that function.
* Digests are arbitrary tables from messages to texts.  Nothing is assumed about them globally: a theorem that
  needs collision resistance asks, for the messages it compares, that equal digests mean equal messages
  (`Apart`, `Separated`).  `Protocol.MessageInjective` and `MerkleTree.EncodeInjective` show that the bytes
  that are hashed determine the message.  Signatures are a fixed table from what is signed.
* What an operation answers is stated twice: as the function that its method computes, and in the modules named
  Answers, Laws and Verdicts as conditions on the rows of the tables alone, with each error, each new row and the
  histories that runs can have.
* Times are integer seconds and days are numbers; every clock value is an input and may run backwards.
  `Protocol.Calendar` stands for their texts.
* Fields that are only matched against patterns are checked against arbitrary sets of texts that writer and
  verifier share.
* Rows that the code writes beside its logs as their projection, the operator network states, the current claim
  status and eligibility, and the latest transfer states, are computed from the logs.  An audit event comes with
  the subject, group and claim state that its writer derives from the request.

| module | models |
|---|---|
| `Basics`, `TextOrder`, `KeyedOrder` | optional values, the order of texts, and sorting by keys |
| `CanonicalLines`, `Protocol`, `DigestText` | the canonical encoding, the hashed contents, and the text of digests |
| `MerkleTree`, `MerkleProof`, `MerkleIndex`, `MerkleAudit` | tree hash, proof verification, stored nodes, generated proofs and the audit of the nodes |
| `Ledger`, `LedgerSafety`, `LedgerAnswers`, `LedgerStore` | batches, nonces, idempotency, Merkle nodes, checkpoints |
| `DatedLogs`, `OperatorClaims`, `OwnershipTransfers`, `Rosters`, `ClaimLaws` | the dated logs, what they make of claims and transfers, and the rosters of groups at their heads |
| `SettlementBoundaries`, `ReviewSources`, `BoundaryLaws` | settlement boundaries, and all tables that a frozen record is computed from, with their writers |
| `ExitReview`, `FrozenRecords`, `RosterMoves`, `ExitReviewSafety`, `ExitReviewAnswers`, `ExitReviewStore` | the exit-review log, what a record pins, what transfers do to it, and its replay |
| `AllocationRows`, `AllocationLaws`, `ExitAllocation`, `TransferSteps`, `TransferAnswers`, `DecisionBoundary`, `ExitSafety`, `AllocationReplay`, `AllocationAnswers`, `AllocationVerdicts`, `AllocationStore` | final allocations, their money, the ownership decision, and all logs together |
| `Counterexamples` | reached states that the replays refuse |
| `IntegrityGate` | the cached trust decision |
| `AnnouncementDraft`, `Announcements`, `AnnouncementFeed`, `AnnouncementAnswers`, `SemanticVersion` | drafts, chain, feed, versions |
| `Shares` | exact shares and the split by largest remainders |

## Findings

* The split loop of the Merkle code ends if and only if the tree size is at most 2^62
  (`MerkleProof.SplitLoopStopsIff`); above that the shift wraps to zero and the loop runs for ever.
* A frozen exit review pins the heads of the operator-audit, claim-review and eligibility logs at the end of its
  record day, and the roster by then, but the writers of these logs and of ownership transfers do not refuse
  events before a finalized day as the ledger does.  If the clock runs back, such an event, or the completion of
  a transfer from or to the record's group, makes the replay refuse the record for good; nothing else does
  (`ExitReviewSafety.ReplayIffNoneEarly`, `ExitSafety.ReviewsReplayIff`, with reached states in
  `Counterexamples.EarlyAuditIsRefused` and `Counterexamples.EarlyCompletionIsRefused`).
* The allocation store does not recompute the payload hash of a verification.  The service supplies it; with any
  other value the replay rejects the log, and with the right ones it always accepts it
  (`AllocationReplay.ReplayIffPayloadsRight`, with a reached state in `Counterexamples.MadeUpPayloadIsRefused`).
* An encoding can be decoded if and only if the list is not empty and no field has a line feed
  (`CanonicalLines.DecodableIff`).

## Model

| member | source | states |
|---|---|---|
| `MerkleTree.EncodeInjective` | registry/protocol/merkle.go:40-72 | The domain byte and the 32-byte digests keep the hashed bytes of leaves, nodes and the empty tree apart, for all well-sized messages |
| `MerkleTree.SplitUnique` | registry/protocol/merkle.go:291-297 | The only power of two p with p < n <= 2p is the split of section 2.1.1 of RFC 9162 |
| `MerkleTree.SplitShared` | registry/protocol/merkle.go:242-249 | An old size beyond the split of the new size has the same split: what the right branch of a consistency proof relies on |
| `MerkleTree.InclusionPathLength` | registry/protocol/merkle.go:110-143 | An inclusion path into n <= 2^d entries has at most d nodes |
| `MerkleProof.LargestPowerOfTwoLessThan` | registry/protocol/merkle.go:291-297 | The loop ends, without wrap-around, at the split, for every 64-bit value up to 2^62 |
| `MerkleProof.SplitLoopStopsIff` | registry/protocol/merkle.go:291-297 | The loop on wrapping 64-bit integers ends if and only if the value is at most 2^62; above that it never ends |
| `MerkleProof.TakeAuditHash` | registry/protocol/merkle.go:279-289 | Reads the next audit hash and moves the shared cursor, or reports a short path or a malformed hash |
| `MerkleProof.RebuildInclusionRoot` | registry/protocol/merkle.go:187-219 | The recursion with its shared cursor returns the rebuilt root, the error, and the cursor that the specification gives |
| `MerkleProof.RebuildConsistencyRoots` | registry/protocol/merkle.go:221-277 | The same for the pair of roots of a consistency proof |
| `MerkleProof.VerifyInclusionProof` | registry/protocol/merkle.go:110-143 | The verifier's verdict, with each rejection, is the specified one, for every proof but those whose rebuild would start a split loop that never ends |
| `MerkleProof.VerifyConsistencyProof` | registry/protocol/merkle.go:145-185 | The same for consistency proofs, with the empty and equal sizes |
| `MerkleProof.InclusionSound` | registry/protocol/merkle.go:110-143 | A proof accepted against the true root of an n-entry ledger proves entry i itself, and its path is exactly the path of section 2.1.3.1 of RFC 9162; only the hashed pairs on the path must be no collision |
| `MerkleProof.ConsistencySound` | registry/protocol/merkle.go:145-185 | A proof accepted against the true root fixes the old root as the Merkle Tree Hash of the first m entries, and its path as the one of section 2.1.4.1 of RFC 9162 |
| `MerkleProof.InclusionComplete` | registry/protocol/merkle.go:110-143 | For every ledger, size and position the path of RFC 9162 is accepted and consumed to its end |
| `MerkleProof.ConsistencyComplete` | registry/protocol/merkle.go:145-185 | For every pair of sizes the proof of RFC 9162 is accepted and consumed to its end |
| `MerkleIndex.Index.Append` | registry/store/sqlite/merkle.go:103-137 | Appending an entry never fails, stores exactly the newly completed subtrees with their Merkle Tree Hashes, and changes no stored node |
| `MerkleIndex.AppendIndexes` | registry/store/sqlite/merkle.go:103-137 | The loop over completed subtrees takes an exact index to an exact index of one entry more |
| `MerkleIndex.HighestWithEnd` | registry/store/sqlite/merkle.go:118-135 | The loop stops at the first even index exactly when no higher subtree ends with the new entry |
| `MerkleIndex.Index.SubtreeRoot` | registry/store/sqlite/merkle.go:434-457 | Any range's root, read from stored subtrees, is its Merkle Tree Hash; an empty range is an error |
| `MerkleIndex.RangeRootIsTrue` | registry/store/sqlite/merkle.go:434-488 | What the reads give for the root of any range of an exact index, aligned or not, is the range's Merkle Tree Hash |
| `MerkleIndex.Index.InclusionPathOf` | registry/store/sqlite/merkle.go:358-390 | The generated inclusion path is the one of section 2.1.3.1 of RFC 9162 |
| `MerkleIndex.Index.ConsistencyPathOf` | registry/store/sqlite/merkle.go:392-432 | The generated consistency path is the one of section 2.1.4.1 of RFC 9162 |
| `MerkleIndex.Index.MerkleInclusionProof` | registry/store/sqlite/merkle.go:248-301 | A proof exists exactly for positions inside a historical tree, carries the true root of that tree, and the verifier accepts it |
| `MerkleIndex.Index.MerkleConsistencyProof` | registry/store/sqlite/merkle.go:303-356 | The same for every pair of historical sizes |
| `MerkleAudit.AuditedIffIndexed` | registry/store/sqlite/merkle.go:175-246 | The counts, the gap checks per level and the child hashes hold together if and only if the table is exactly the completed subtrees, each with its Merkle Tree Hash |
| `MerkleAudit.WidthsAreEntriesLessOnes` | registry/store/sqlite/merkle.go:183-186 | The completed subtrees of n entries number n less the one bits of n |
| `MerkleAudit.VerifyMerkleTree` | registry/store/sqlite/merkle.go:175-246 | The audit, with its loops over levels and nodes, accepts if and only if the index is complete and correct |
| `DigestText.ParseFormat` | registry/protocol/merkle.go:299-308 | Every 32-byte digest is read back from its text |
| `DigestText.FormatParse` | registry/protocol/protocol.go:382-392 | A text that is accepted as a digest is the one text of what it decodes to |
| `DigestText.FormatReads` | registry/protocol/merkle.go:299-308 | The text names sha256 and writes each byte as two lower-case hexadecimal digits, the larger half first |
| `CanonicalLines.DecodableIff` | registry/protocol/protocol.go:462-468 | A list of lines can be read back from its encoding if and only if it is not empty and no line has a line feed |
| `CanonicalLines.CanonicalInjective` | registry/protocol/protocol.go:466-468 | Equal encoded bytes come from equal fields, for lists of lines without line feeds |
| `CanonicalLines.CanonicalCollisions` | registry/protocol/protocol.go:466-468 | Without those conditions encodings do coincide: the empty list and the list of one empty line, and a line that contains a line feed |
| `CanonicalLines.ParseFormat` | registry/protocol/protocol.go:270-275 | Decimal integers of any sign are read back from their text |
| `Protocol.ReviewMemberRowsInjective` | registry/protocol/exit_review.go:139-161 | The count-prefixed member list is determined by its lines |
| `Protocol.SettlementBoundaryRowsInjective` | registry/protocol/exit_review.go:163-185 | The count-prefixed settlement-boundary list is determined by its lines |
| `Protocol.SettlementSourceRowsInjective` | registry/protocol/exit_allocation.go:140-164 | The count-prefixed settlement-source list is determined by its lines |
| `Protocol.CurrencyAllocationRowsInjective` | registry/protocol/exit_allocation.go:166-186 | The count-prefixed currency list is determined by its lines |
| `Protocol.EntryContentInjective` | registry/protocol/protocol.go:265-282 | The lines of a ledger entry determine all its hashed fields |
| `Protocol.ReviewEventContentInjective` | registry/protocol/exit_review.go:235-258 | The lines of an exit-review event determine all its hashed fields |
| `Protocol.AllocationContentInjective` | registry/protocol/exit_allocation.go:188-223 | The lines of an allocation record determine all its hashed fields |
| `Protocol.MessageInjective` | registry/protocol/protocol.go:152-175 | Equal bytes come from equal messages over fourteen kinds of hashed content: no two kinds ever coincide, and no two contents of a kind do |
| `LedgerStore.Store.AcceptInstallationBatch` | registry/store/sqlite/batches.go:14-250 | The record or error that is returned and every table afterwards, said of the rows: a used nonce, another payload under the key, a finalized day, a wrong revision, a time behind the head, a failing signer and taken IDs and hashes, in the code's order; nothing written before is changed |
| `LedgerStore.Store.AppendMerkleEntry` | registry/store/sqlite/merkle.go:103-137 | The nodes after a ledger append are those of the completed subtrees, or the entry's hash is no digest |
| `LedgerStore.Store.FinalizeCompletedCheckpoints` | registry/store/sqlite/checkpoints.go:15-130 | One checkpoint for each day that has ended by the clock and none for a day that is still running, or no change at all, which takes two checkpoints with one hash |
| `LedgerStore.Store.VerifyLedger` | registry/store/sqlite/verify.go:14-99 | Accepts if and only if index, scope, previous hash, entry hash and time order are right at every entry |
| `LedgerStore.Store.VerifyCheckpoints` | registry/store/sqlite/checkpoints.go:198-278 | Accepts if and only if every checkpoint continues the day and hash chain, is sealed, and states the ledger head of its day; always accepts what runs reach |
| `LedgerSafety.ExtentIsPrefix` | registry/store/sqlite/checkpoints.go:152-174 | The entries before a time are a prefix of the chain, and both COUNT and MAX(ledger_index) give its length |
| `LedgerSafety.HeadStays` | registry/store/sqlite/batches.go:330-356 | An entry at or after a day's end leaves the head of that day unchanged |
| `LedgerSafety.AppendKeepsChain` | registry/store/sqlite/batches.go:61-97 | Every append behind the three time guards keeps the chain and all finalized checkpoints |
| `LedgerSafety.AppendKeepsIndex` | registry/store/sqlite/merkle.go:103-137 | In an exact index an append fails only on a hash that is no digest, and otherwise leaves an exact index of one entry more with every older node unchanged |
| `LedgerSafety.FinalizeKeepsChain` | registry/store/sqlite/checkpoints.go:46-125 | Finalization leaves no day without a checkpoint and keeps every checkpoint verified |
| `LedgerSafety.RunSound` | registry/store/sqlite/batches.go:14-250 | Any run of acceptances, other ledger writers and finalizations, under any clock, keeps chain, Merkle index, checkpoints, batches, revisions and nonces sound and only adds to the tables |
| `LedgerSafety.FinalizedForever` | registry/store/sqlite/checkpoints.go:198-278 | A finalized checkpoint keeps its row for ever; its entry count equals its through index and is exactly the number of entries ever accepted before the end of its day, and verification keeps accepting the whole chain |
| `LedgerSafety.Resubmission` | registry/store/sqlite/batches.go:25-60 | After any further run, the same payload under the same key returns the original record as a duplicate and writes at most one nonce row; only a nonce used by another request stops it |
| `LedgerSafety.FreshAcceptance` | registry/store/sqlite/batches.go:82-249 | A first acceptance returns a record of exactly what was submitted, at the next index and linked to the head, and the idempotency row it leaves reads the same record back |
| `LedgerSafety.MissingRecordUnreachable` | registry/store/sqlite/batches.go:58-60 | In every run a used nonce has the idempotency record of its request, or another request under the nonce has the same hash: the branch for a missing record takes a collision |
| `LedgerSafety.RevisionsLinear` | registry/store/sqlite/batches.go:252-288 | In every run the qualified-MAU batches of a deployment and period are revisions 1..n, each superseding the one before |
| `LedgerAnswers.FinalizeCloses` | registry/store/sqlite/checkpoints.go:15-130 | A finalization adds exactly the missing checkpoints of days that end at or before its clock and writes nothing else; it fails only if two checkpoints have one hash |
| `LedgerAnswers.NoneFromTheFuture` | registry/store/sqlite/checkpoints.go:20-73 | No run whose clocks are all at most T holds a checkpoint of a day that ends after T |
| `LedgerAnswers.CheckpointSays` | registry/store/sqlite/checkpoints.go:75-125 | A checkpoint names the hash of the one before it, and counts the entries from before the end of its day, the last of which is its head |
| `LedgerAnswers.AcceptAnswers` | registry/store/sqlite/batches.go:14-250 | What the answer to any submission is in any sound state, as conditions on the rows, and the new row of each table |
| `LedgerAnswers.OtherPayloadRefused` | registry/store/sqlite/batches.go:25-60 | After a first acceptance and any further run, another payload under the same signer and key is refused and changes nothing: an idempotency conflict, unless another request has used the nonce |
| `LedgerAnswers.OtherAnswers` | registry/store/sqlite/revenue.go:81-190 | Other ledger writers append one entry behind the same three guards on the time, or are refused by the first that fails |
| `LedgerAnswers.SideAnswers` | registry/store/sqlite/revenue.go:13-310 | What the answer to a registration or a revenue batch is, as conditions on the rows that it shares with the other batches, and what it writes there |
| `LedgerAnswers.VerifiesIffWritten` | registry/store/sqlite/verify.go:14-99 | The ledger verifier accepts exactly the chains that the writers append entry by entry |
| `LedgerAnswers.CheckpointsIffSealed` | registry/store/sqlite/checkpoints.go:198-278 | The checkpoint verifier accepts exactly the chains that finalizations write over the ledger |
| `ExitReviewStore.Store.FreezeExitReview` | registry/store/sqlite/exit_review.go:118-230 | The review or error that is returned and the tables afterwards, for new, repeated and refused freezes; the record is computed from the tables of the moment |
| `ExitReviewStore.Store.ComputeRecord` | registry/store/sqlite/exit_review.go:440-572 | The record over the day's checkpoint, the Merkle root of its entries, the heads of the logs at the end of the day, the roster at these heads and the settlement boundary, or the error of the first that is missing; a claim whose deployment is not eligible in its group has no record |
| `ExitReviewAnswers.RosterAnswers` | registry/store/sqlite/exit_review.go:574-713 | A roster exists exactly if the claim was submitted with a name and may be exited at the end of the day; it then has one row for each deployment of the group, in the order of their IDs, that says what the logs say |
| `ExitReviewAnswers.RecordAnswers` | registry/store/sqlite/exit_review.go:440-572 | A record exists exactly for a day with a checkpoint and a claim that may be frozen; what each of its fields says, of the checkpoint, the Merkle Tree Hash of its entries, the heads of the logs, the roster and the settlements |
| `ExitReviewAnswers.FreezeAnswers` | registry/store/sqlite/exit_review.go:118-230 | What the answer to any freeze is in any sound state, as conditions on the rows, and what it writes |
| `ExitReviewAnswers.FreezeNeedsApproval` | registry/store/sqlite/exit_review.go:647-662 | A claim is frozen only if a review from before the end of the day approves it and the last eligibility decision from before that end, if any, does not suspend it |
| `ExitReviewAnswers.DecisionAnswers` | registry/store/sqlite/exit_review.go:232-345 | The same for decisions: the legal steps between statuses, the days, the reason code, the payload hash, and each error |
| `ExitReviewAnswers.ReplaysIffWritten` | registry/store/sqlite/exit_review_verify.go:77-207 | The replay accepts exactly the events that the writers write behind the ones before them, each with its query row |
| `ExitReviewAnswers.RecordSays` | registry/store/sqlite/exit_review_verify.go:230-326 | A record that the replay accepts says what its sources say now |
| `ExitReviewAnswers.ReviewHistories` | registry/store/sqlite/exit_review.go:1389-1409 | In every accepted log a review is frozen and then verified or rejected, and disputed, in turn; a withdrawal is its last event |
| `ExitReviewAnswers.ClaimsFrozenOnce` | registry/store/sqlite/exit_review.go:169-181 | In every run a claim of a deployment is frozen at most once |
| `Rosters.MembersAtBoundary` | registry/store/sqlite/exit_review.go:574-713 | The loop over the group's deployments builds the roster at the heads of the logs, and none if the claim was not submitted or its deployment is not in the group, by this claim and eligible |
| `Rosters.RosterExact` | registry/store/sqlite/leaderboard.go:24-179 | A roster lists exactly the deployments that are active and claimed in the group, by their claims, links and completed transfers, each once and in the order of their IDs, and it lists the claim's own deployment |
| `Rosters.RosterSameIff` | registry/store/sqlite/leaderboard.go:95-136 | Over the same audit, review and eligibility logs two rosters are the same if and only if their transfers leave the same deployments in the group |
| `OperatorClaims.ClaimMade` | registry/store/sqlite/operator_state.go:163-236 | A standing claim is that of the audit event that made it, and its deployment is active |
| `OperatorClaims.ReviewsOkAppended` | registry/store/sqlite/operator_claims.go:144-356 | A claim is reviewed at most once, as a pending claim of its deployment and not before it was made |
| `OperatorClaims.EligibilitiesOkAppended` | registry/store/sqlite/operator_claim_eligibility.go:83-160 | Only approved claims are suspended, not before their approval, and the decisions on a claim alternate, suspension first |
| `ClaimLaws.ClaimMeans` | registry/store/sqlite/operator_state.go:163-236 | The standing claim is that of the last submission, or of the first redeemed token where none stood, and nothing withdrew it or deactivated its deployment since |
| `ClaimLaws.InGroupMeans` | registry/store/sqlite/leaderboard.go:24-136 | A deployment is in a group exactly if it is active and claimed, and its last completed transfer with no event since leads there, or without one its last claim, link or revoked link |
| `ClaimLaws.TargetMeans` | registry/store/sqlite/exit_review.go:640-662 | A claim may be exited from a group exactly if its deployment is in the group by it, and it is approved and not suspended, or from before claims were reviewed |
| `ClaimLaws.RowReads` | registry/store/sqlite/leaderboard.go:137-179 | When the row of a member says claimed, approved, rejected and pending-review, and active, suspended and inactive; and that it names the events these rest on |
| `BoundaryLaws.BoundaryIs` | registry/store/sqlite/exit_review.go:785-855 | The roster of a day is read from exactly the audit events, reviews, eligibility decisions and completed transfers from before the end of the day |
| `BoundaryLaws.CurrentMeans` | registry/store/sqlite/ownership_transfer.go:1181-1248 | A claim is current in a group exactly if the event that made it was in this group, it stands there, approved and not suspended, and no completed transfer of it applies |
| `BoundaryLaws.ReceivesMeans` | registry/store/sqlite/ownership_transfer.go:1295-1363 | A group may take a claim over exactly if an approved and unsuspended claim that was made in it still has its deployment there |
| `BoundaryLaws.SettleAnswers` | registry/store/sqlite/settlement.go:846-925 | A settlement writes its row, of a new ID and a new revision of its period and currency, at the index and the time of its own ledger entry, and nothing else |
| `BoundaryLaws.AuditAnswers` | registry/store/sqlite/ownership_transfer.go:1403-1427 | An audit event is accepted exactly if it is a new action at a time not before its log and after every completed transfer, and only active deployments claim |
| `BoundaryLaws.ReviewAnswers` | registry/store/sqlite/operator_claims.go:144-356 | A claim review is accepted exactly if it is on the standing, pending and unreviewed claim of its deployment, not before the claim or the log's head |
| `BoundaryLaws.EligibilityAnswers` | registry/store/sqlite/operator_claim_eligibility.go:83-160 | An eligibility decision is accepted exactly if it is on a standing claim that was approved by then, and suspends or reinstates in turn |
| `ReviewSources.ViewStays` | registry/store/sqlite/exit_review.go:440-520 | Once a day is finalized, its checkpoint, its Merkle root and its settlement boundary are read back the same after any further ledger entries, checkpoints and settlements |
| `DatedLogs.HeadCounts` | registry/store/sqlite/exit_review.go:785-855 | The head of a log at the end of a day is the last event dated before it, and its index counts exactly those events |
| `DatedLogs.HeadStandsIff` | registry/store/sqlite/exit_review.go:785-855 | The head that a log had at the end of a day is read back if and only if no later event is dated before that end |
| `FrozenRecords.AnchoredStays` | registry/store/sqlite/exit_review.go:440-572 | What the sources once gave for a frozen record they give again for ever, once the dated logs are cut back to their lengths of that time |
| `FrozenRecords.VerifiesIff` | registry/store/sqlite/exit_review_verify.go:294-319 | A frozen record is accepted again if and only if no audit event, claim review or eligibility decision since its freeze is dated before the end of its day, and the transfers in effect by then have moved no deployment into its group or out of it |
| `RosterMoves.CurrentUntransferred` | registry/store/sqlite/ownership_transfer.go:1181-1248 | While a claim is current in the group it was made in, no completed transfer of its deployment applies |
| `RosterMoves.TransferDisturbs` | registry/store/sqlite/ownership_transfer.go:404-495 | An accepted transfer event takes a frozen roster away if and only if it completes a transfer before the end of the record's day from or to the record's group, and no transfer event gives a roster back |
| `ExitReviewStore.Store.AppendExitReviewEvent` | registry/store/sqlite/exit_review.go:232-345 | The same for decisions, with the service's reason-code rules |
| `ExitReviewStore.Store.VerifyExitReviews` | registry/store/sqlite/exit_review_verify.go:20-228 | The replay accepts if and only if every record is computed again and every event and query row is right against what came before; of the states that the writers reach, it accepts exactly those in which no frozen record was disturbed |
| `ExitReviewStore.ReplayEvents` | registry/store/sqlite/exit_review_verify.go:77-207 | The loop over per-review maps accepts if and only if each event verifies against the log before it, and knows the freezes it saw |
| `ExitReviewStore.Store.VerifyRecords` | registry/store/sqlite/exit_review_verify.go:230-326 | Accepts if and only if every frozen record is well formed and the one that its sources give now |
| `ExitReviewStore.SemanticsAgree` | registry/store/sqlite/exit_review_verify.go:352-392 | The verifier's transition rules and the writer's transition and reason-code rules are the same, in every state |
| `ExitReviewSafety.RunSound` | registry/store/sqlite/exit_review.go:118-345 | In every run of ledger writers, settlements, audit events, claim reviews, eligibility decisions, transfers, freezes and decisions, the sources stay sound, every record stays what they once gave, and the log and its query rows replay |
| `ExitReviewSafety.ReplayIffNoneEarly` | registry/store/sqlite/exit_review_verify.go:20-228 | The replay accepts what a run has reached if and only if nothing in it was accepted before the end of a day after a record of that day was frozen: no audit event, claim review or eligibility decision, and no completion of a transfer from or to the record's group |
| `ExitSafety.ReviewsReplayIff` | registry/store/sqlite/exit_review_verify.go:20-228 | The same over runs of all writers of reviews, transfers and allocations, with the guards of each |
| `Counterexamples.EarlyAuditIsRefused` | registry/store/sqlite/operator.go:107-123 | Claim two deployments and approve the claims, close the day, freeze a review of one claim, and accept an audit event of that day under a clock that ran back: the replay accepts the state before the event, whose roster has the deployment, and refuses the one after it |
| `Counterexamples.EarlyCompletionIsRefused` | registry/store/sqlite/ownership_transfer.go:404-495 | From the same day, with the review verified: prepare, approve and complete a transfer of its claim to the other group under a clock that ran back; the replay accepts the state before the completion and refuses the one after it |
| `ExitReviewSafety.LatestIsLast` | registry/store/sqlite/exit_review.go:1029-1052 | The query row that the writer reads is the projection of the review's last event |
| `ExitReviewSafety.HistoryOrdered` | registry/store/sqlite/exit_review.go:1389-1409 | In an accepted log a later event of a review is no freeze, is a legal transition, is not effective earlier, and follows no withdrawal |
| `ExitReviewSafety.FreezeIsFirst` | registry/store/sqlite/exit_review_verify.go:200-215 | In an accepted log every record has exactly one freeze, on its record date, and it is the first event of its review |
| `ExitReviewSafety.AcceptedRowsProject` | registry/store/sqlite/exit_review_verify.go:177-226 | In an accepted state the query rows are the log's projection, row for row, and there is no row more |
| `ExitReviewSafety.HeadFixesHistory` | registry/store/sqlite/exit_review_verify.go:103-176 | Two accepted logs with one head hash are the same log, if the events compared are no collision and none hashes to the zero hash |
| `ExitReviewSafety.FreezeRepeats` | registry/store/sqlite/exit_review.go:131-161 | A freeze submitted again with the same contents under its key returns the first event as a duplicate and changes nothing, after any steps in between |
| `ExitReviewSafety.DecisionRepeats` | registry/store/sqlite/exit_review.go:245-275 | The same for a decision, whatever the review's status is by then |
| `SettlementBoundaries.SettlementsAtBoundary` | registry/store/sqlite/exit_review.go:715-783 | The boundary list with order equal to position, and the largest ledger index in it |
| `SettlementBoundaries.RankedExactly` | registry/store/sqlite/exit_review.go:720-747 | The list holds exactly the newest revision of every period and currency at or below the cut-off, in strict order |
| `SettlementBoundaries.BoundaryReads` | registry/store/sqlite/exit_review.go:720-783 | The frozen list has one row, copied from the newest revision, for each period and currency settled by the cut-off, in the order of periods and currencies and numbered from 0 |
| `SettlementBoundaries.BoundaryUnique` | registry/store/sqlite/exit_review.go:740-747 | A list in that order is determined by its elements |
| `SettlementBoundaries.BoundaryStable` | registry/store/sqlite/exit_review_verify.go:294-319 | Settlements at later ledger indexes leave the recomputed boundary identical |
| `AllocationRows.DeriveRows` | registry/store/sqlite/exit_allocation.go:994-1101 | Succeeds exactly if every frozen source is unchanged, fraction digits agree and no running total passes 2^53-1; the result is conserved |
| `AllocationRows.ValidConservation` | registry/store/sqlite/exit_allocation_verify.go:291-348 | The validator accepts if and only if sources are well formed and safe and the currency list is conserved |
| `AllocationRows.TotalSources` | registry/store/sqlite/exit_allocation_verify.go:294-320 | The validator's totals are the sum and fraction digits of each currency, or a source is wrong |
| `AllocationRows.ConservedUnique` | registry/store/sqlite/exit_allocation_verify.go:321-347 | For the same sources and beneficiary no other currency list is conserved |
| `AllocationRows.ConservedInTotal` | registry/store/sqlite/exit_allocation.go:1080-1099 | All currencies together allocate exactly what all sources distribute |
| `AllocationRows.CurrenciesConserved` | registry/store/sqlite/exit_allocation.go:1081-1099 | Sorted codes of the totals cover exactly the source currencies, each with its whole sum |
| `AllocationRows.DerivedAccepted` | registry/store/sqlite/exit_allocation_verify.go:176-197 | What a derivation gives is conserved and safe, and no other currency list is |
| `AllocationRows.FitsIff` | registry/store/sqlite/exit_allocation.go:1067-1077 | The overflow and fraction checks on the running totals admit a source exactly if all totals stay safe and digits agree |
| `AllocationLaws.DecideMeans` | registry/store/sqlite/exit_allocation.go:881-992 | A request gets an ownership decision exactly if no other transfer of the claim is open or completed, and it names a transfer of the review that was completed by the given event, or no transfer and a beneficiary |
| `AllocationLaws.ConservedMeans` | registry/store/sqlite/exit_allocation_verify.go:321-347 | A currency list is conserved exactly if its rows are in the order of the sources' currencies and each gives its currency's whole sum to the beneficiary |
| `AllocationLaws.DerivedMeans` | registry/store/sqlite/exit_allocation.go:994-1101 | A derivation succeeds exactly if the frozen settlements are unchanged, their digits agree and no sum passes 2^53-1; its sources are the group's amounts of these settlements |
| `AllocationStore.Store.PrepareOwnershipTransfer` | registry/store/sqlite/ownership_transfer.go:133-349 | The outcome and the transfer log afterwards, for new, repeated and refused preparations; none is prepared for a review that has an allocation |
| `AllocationStore.Store.AppendOwnershipTransferEvent` | registry/store/sqlite/ownership_transfer.go:351-578 | The same for the decisions on a transfer, with the membership row of a completion |
| `OwnershipTransfers.WrittenOk` | registry/store/sqlite/ownership_transfer.go:1429-1451 | Every accepted event keeps the log numbered, ordered and over recorded transfers, and nothing follows a completion, which its membership row names |
| `TransferAnswers.TransferHistories` | registry/store/sqlite/ownership_transfer.go:1429-1451 | In every run a transfer is prepared, and then rejected, cancelled, or approved and then cancelled or completed; it has a membership row exactly if it was prepared, approved and completed, and a claim has at most one transfer that awaits a decision |
| `TransferAnswers.MembershipRows` | registry/store/sqlite/ownership_transfer.go:404-578 | In every run a membership row names the completion that wrote it and copies its transfer, on the day of its acceptance, and its audit index separates the audit events before the completion from those after it |
| `TransferAnswers.PrepareAnswers` | registry/store/sqlite/ownership_transfer.go:133-349 | What the answer to any preparation is in any sound state, as conditions on the rows, and what it writes |
| `TransferAnswers.AdvanceAnswers` | registry/store/sqlite/ownership_transfer.go:351-578 | The same for decisions on transfers, with what a completion asks of its claim, its review, its target group and its time |
| `DecisionBoundary.DecidedVerifies` | registry/store/sqlite/exit_allocation.go:881-992 | The ownership decision that a creation takes verifies at once: head, contest and completion at its boundary |
| `DecisionBoundary.DecisionStays` | registry/store/sqlite/exit_allocation_verify.go:362-508 | A pinned ownership decision keeps verifying while the transfer log goes on, unless a transfer of its review is prepared |
| `AllocationStore.Store.CreateExitAllocation` | registry/store/sqlite/exit_allocation.go:150-404 | The allocation or error that is returned and the tables afterwards, for new, repeated and refused creations |
| `AllocationStore.Store.VerifyExitAllocation` | registry/store/sqlite/exit_allocation.go:406-583 | The same for verifications, with the review, the ownership decision and the rows derived again |
| `AllocationAnswers.CreateAnswers` | registry/store/sqlite/exit_allocation.go:150-404 | What the answer to any creation is, as conditions on the rows, and each field of what it writes |
| `AllocationAnswers.VerifyAnswers` | registry/store/sqlite/exit_allocation.go:406-583 | The same for verifications |
| `AllocationAnswers.AnswersInRuns` | registry/store/sqlite/exit_allocation.go:150-583 | These are the answers in every state that a run reaches |
| `AllocationVerdicts.ReplaysIffWritten` | registry/store/sqlite/exit_allocation_verify.go:509-651 | The replay accepts exactly the events that the writers write behind the ones before them, with their payload hash |
| `AllocationVerdicts.DecisionMeans` | registry/store/sqlite/exit_allocation_verify.go:362-508 | A pinned ownership decision verifies exactly if its head is in the log, no other transfer of the claim was open or completed then, none of the review was prepared since, and its completion led to the beneficiary |
| `AllocationVerdicts.RecordMeans` | registry/store/sqlite/exit_allocation_verify.go:83-210 | A record verifies exactly if it is sealed, its pinned verification is in the review log, the decision is right, and the frozen settlements still give its rows |
| `AllocationStore.Store.VerifyExitAllocations` | registry/store/sqlite/exit_allocation_verify.go:14-49 | Accepts if and only if records, events and query rows are replayable |
| `AllocationStore.Store.VerifyRecord` | registry/store/sqlite/exit_allocation_verify.go:83-210 | Accepts a record if and only if its hashes, pins, derived rows, conservation and ownership decision at its boundary are right |
| `AllocationStore.VerifiedEvents` | registry/store/sqlite/exit_allocation_verify.go:509-651 | The event loop accepts if and only if every event verifies, and builds exactly the expected query rows; its limit of two events never stops a valid log |
| `AllocationStore.VerifyStateRows` | registry/store/sqlite/exit_allocation_verify.go:671-710 | Accepts if and only if every query row is the projection of its event and the counts agree |
| `AllocationReplay.ReplayIffPayloadsRight` | registry/store/sqlite/exit_allocation_verify.go:14-49 | The replay of records, ownership decisions, events and query rows accepts what a run has reached if and only if every verification accepted in it carried the payload hash that the service computes |
| `AllocationReplay.VerifyReplaysIff` | registry/store/sqlite/exit_allocation.go:543-565 | The store takes the payload hash of a verification as given; the replay accepts the result if and only if it is the hash over the fields of the call and the stored record |
| `Counterexamples.MadeUpPayloadIsRefused` | registry/store/sqlite/exit_allocation.go:543-565 | A reached state in which the store accepts a verification with a made-up payload hash: the replay accepts the state before it and refuses the one after it |
| `AllocationReplay.TwoEvents` | registry/store/sqlite/exit_allocation_verify.go:563-600 | In an accepted log the events of an allocation are its creation and then its verification, which names the creation's hash |
| `AllocationReplay.AtMostTwoEvents` | registry/store/sqlite/exit_allocation_verify.go:624-630 | No allocation has more than two events in an accepted log |
| `AllocationReplay.CreationRepeats` | registry/store/sqlite/exit_allocation.go:161-206 | A creation submitted again with the same contents under its key returns the first event as a duplicate and changes nothing, whatever happened to the review, the transfers or the allocation since |
| `AllocationReplay.VerificationRepeats` | registry/store/sqlite/exit_allocation.go:417-452 | The same for a verification, even if the review is disputed afterwards |
| `ExitSafety.StandingIsLast` | registry/store/sqlite/exit_allocation.go:841-879 | A review stands at a verification only if that verification is its last event |
| `ExitSafety.RunSound` | registry/store/sqlite/exit_allocation.go:225-239 | Each review has at most one allocation, and each allocation pins a verification of its own review, in every run |
| `ExitSafety.NotEligibleIsStale` | registry/store/sqlite/exit_allocation.go:841-879 | A disputed or withdrawn review has moved on from the verification that its allocation pins |
| `ExitSafety.NeverFinal` | registry/store/sqlite/exit_allocation.go:470-514 | If a review is disputed or withdrawn after its allocation was recorded and before it was verified, no later run gives that review a final allocation, not even after a fresh verification of the review |
| `IntegrityGate.Service.VerifyState` | registry/service/service.go:503-537 | The trusted revision and the sticky failure after an audit, for every outcome of its reads |
| `IntegrityGate.Service.VerifyOperationalState` | registry/service/service.go:550-621 | The verdict and the fields after a gate call, for every outcome of its reads |
| `IntegrityGate.AdmissionIsSafe` | registry/service/service.go:550-621 | Over any interleaving of audits, gate calls, own writes and external commits: an admitted request stands on the current revision, with no failed audit since the last success, and every check that established the trust holds on the present content |
| `IntegrityGate.FastPathIsFullyValid` | registry/service/service.go:554-569 | From a successful audit until another connection commits, every admitted request sees a content on which all checks of the complete audit pass |
| `IntegrityGate.FailureIsSticky` | registry/service/service.go:554-559 | After a failed audit nothing is admitted until an audit succeeds |
| `IntegrityGate.AuditEndsIff` | registry/service/service.go:503-537 | A complete audit that begins and ends within a run succeeds if and only if it ends by having passed all its checks and no other connection committed since it began; after a success the content passes every check |
| `IntegrityGate.GateEndsIff` | registry/service/service.go:571-620 | A gate call that begins off the fast path without a failed audit, and ends within a run, admits if and only if it has passed all its checks and no other connection committed since it began; the present revision is then trusted |
| `IntegrityGate.GateBegins` | registry/service/service.go:550-569 | A gate call is refused at once after a failed audit, and admitted at once if the present revision is trusted |
| `AnnouncementDraft.ValidateAndNormalize` | registry/service/announcement.go:413-582 | The answer is a possible outcome of sorting and checking, whatever the sort does with equal keys |
| `AnnouncementDraft.OrderIndependent` | registry/service/announcement.go:460-560 | Drafts that differ in the order of localizations or links are both rejected or normalize to the same draft |
| `AnnouncementDraft.NormalizedIsUnique` | registry/service/announcement.go:487-551 | A normalized draft permutes its input, has globally unique locales and links, and normalizes to itself |
| `Announcements.Store.Publish` | registry/store/sqlite/announcements.go:54-224 | The entry or error that is returned and the chain afterwards are those of a publication |
| `Announcements.Store.VerifyAnnouncements` | registry/store/sqlite/announcement_verify.go:11-166 | Accepts if and only if every entry is numbered, linked, sealed and consistent with its nested contents |
| `Announcements.PublishKeepsChain` | registry/store/sqlite/announcements.go:85-150 | A publication only adds to the chain and keeps it verifying |
| `Announcements.RepublishIsDuplicate` | registry/service/announcement.go:101-158 | Publishing a permuted draft again, at any later time and with a new ID, returns the first entry as a duplicate and appends nothing |
| `Announcements.HeadFixesHistory` | registry/store/sqlite/announcement_verify.go:29-161 | Two accepted chains with one head hash have the same length and the same hashed entries |
| `AnnouncementAnswers.NormalizeAnswers` | registry/service/announcement.go:413-582 | A draft is accepted exactly if its texts, links and manifest are right and no locale or link repeats, whatever their order; its lists are then put in order |
| `AnnouncementAnswers.PublishAnswers` | registry/store/sqlite/announcements.go:54-224 | What the answer to any publication is on any chain that verifies, and each field of the entry it appends |
| `AnnouncementAnswers.VerifiesIffWritten` | registry/store/sqlite/announcement_verify.go:29-161 | The verification accepts exactly the entries that publications append to the ones before them |
| `AnnouncementFeed.ReadAnnouncements` | registry/store/sqlite/announcements.go:285-334 | The newest matching rows up to the limit |
| `AnnouncementFeed.AnnouncementFeed` | registry/service/announcement.go:174-290 | The page or refusal that a feed request gets, with its next cursor |
| `AnnouncementFeed.SelectMembers` | registry/store/sqlite/announcements.go:289-315 | The selected list has exactly the matching entries |
| `AnnouncementFeed.SelectDescends` | registry/store/sqlite/announcements.go:313 | The selected list is strictly descending |
| `AnnouncementFeed.SelectStable` | registry/store/sqlite/announcements.go:289-291 | Entries appended later do not reach into a pinned snapshot |
| `AnnouncementFeed.VerifiedIsNumbered` | registry/store/sqlite/announcement_verify.go:43-49 | A chain that verifies is numbered from 1 without gaps, as walks need |
| `AnnouncementFeed.NextStands` | registry/service/announcement.go:329-386 | Every emitted cursor is accepted again |
| `AnnouncementFeed.FollowWalks` | registry/service/announcement.go:174-238 | Following cursors with any limits while the chain grows shows exactly the next entries of the pinned list and ends within as many pages as entries are left |
| `AnnouncementFeed.WalkShowsSnapshot` | registry/service/announcement.go:174-290 | A walk from a first page shows the matching entries up to the pinned sequence, in descending order, without gap or repeat, all pages under one snapshot, and all of them when the cursors end |
| `AnnouncementAnswers.WalkShowsVisible` | registry/service/announcement.go:174-290 | A walk shows only entries that are out, are not expired unless the filter includes expired ones, and have its kind, severity and channel; newest first and none left out, and all of them when the cursors end |
| `AnnouncementAnswers.FeedAnswers` | registry/service/announcement.go:174-290 | What the answer to any feed request is: the refused limits, filters and cursors, and the entries, length and cursor of a page |
| `SemanticVersion.CompareSemanticVersions` | registry/service/announcement.go:971-1029 | The two loops compute the precedence |
| `SemanticVersion.CompareAntisymmetric` | registry/service/announcement.go:971-1029 | Swapping the sides negates the answer; only equal core and prerelease compare equal |
| `SemanticVersion.CompareTransitive` | registry/service/announcement.go:971-1029 | The comparison is transitive, also strictly |
| `SemanticVersion.NumericIdentifiersByValue` | registry/service/announcement.go:1000-1010 | Length, then text, compares numeric identifiers by their integer values |
| `SemanticVersion.CompareIsPrecedence` | registry/service/announcement.go:971-1029 | The answer is the precedence of section 11 of Semantic Versioning 2.0.0: core by value, a prerelease before its release, numeric identifiers by value and before others, and a longer list after its prefix |
| `SemanticVersion.ParseFormat` | registry/service/announcement.go:884-930 | Every valid version is read back from its text with any build metadata behind it, exactly within the length limits |
| `SemanticVersion.FormatParse` | registry/service/announcement.go:884-960 | What parses is valid, and its text is the canonical text of the version and build metadata |
| `Shares.FounderShareExact` | registry/service/operator.go:989-997 | The founder's share is 600000/(600000+w), and at least 1/10, for every 64-bit measured weight w, although the sum in it may wrap around |
| `Shares.FounderShareFalls` | registry/service/operator.go:989-997 | The founder's share never rises as measured weight grows |
| `Shares.SharesSumToOne` | registry/service/operator.go:960-987 | Whatever rows are listed, founder and operators share exactly 1 if the eligible positive weights sum to the claimed total |
| `Shares.SharesProportional` | registry/service/operator.go:982-986 | Operators' shares are in proportion to their weights |
| `Shares.LargestRemainder` | registry/store/sqlite/settlement.go:654-701 | For any ratios and any 64-bit amount: the errors for a negative amount, a part that is too large and units that do not fit, with 64-bit sums; otherwise each part is its floor or one more, and the units left go to the largest remainders first |
| `Shares.WholeSplitIsFair` | registry/store/sqlite/settlement.go:654-701 | By ratios that sum to 1 every amount is split without an error, the parts make up the amount exactly, and none misses its exact share by a unit or more |
| `Shares.FairMeans` | registry/store/sqlite/settlement.go:654-701 | What that means for the amounts alone: no one misses its exact share by more than a unit, and a unit goes to the larger fraction, or between equal ones to the smaller ID |

## Left out

- MerkleProof.LargestPowerOfTwoLessThan: asks for values up to 2^62, because the loop does not end above that; so do the methods that reach it.
- AllocationStore.Store.PrepareOwnershipTransfer: the hashes of transfer events, records and memberships are inputs, and their fields are not checked against patterns.
- AllocationStore.Store.AppendOwnershipTransferEvent: the same; the replay of the transfer log itself is not modelled.
- The derivation of audit events from requests, with their nonces, client tokens, links and expiry, and registrations of deployments: the derived event is an input.
- AnnouncementDraft.ValidateAndNormalize: update manifests are checked against a set of accepted manifests, and which of several errors is reported is not modelled.
- AnnouncementFeed.AnnouncementFeed: the JSON and base64 text of cursors and its length limit are not modelled; a cursor is its payload and signature.
- BoundaryLaws.ReviewAnswers: the idempotency keys, groups, legal names and reason codes of claim reviews are not modelled.
- BoundaryLaws.EligibilityAnswers: the same for eligibility decisions.
- BoundaryLaws.AuditAnswers: the checks of links, tokens and nonces in the derivation of an audit event are not modelled.
- Errors of the database, of parsing and of input and output; migrations and the repair of a partial Merkle index at start-up.
- SHA-256, Ed25519, base64 and calendar texts.
- Registry cases, operator profiles, global identities, settlement calculation and leaderboard weights.
- HTTP, JSON, the command line, key files, configuration and demo data.
- Listing and paging of reviews and allocations, which only read query rows.
