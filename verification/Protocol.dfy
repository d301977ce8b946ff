/**
  The entities of the registry whose contents are hashed, and the lines that are hashed for each.

  Timestamps and days are integers (seconds and day numbers); a `Calendar` gives their text.  A digest is
  an arbitrary table from messages to texts.  Results that need collision resistance ask for it on the
  messages they are about.
*/
module Protocol {
  import opened Basics
  import opened CanonicalLines

  /** The text of timestamps and of days. */
  datatype Calendar = Calendar(time: imap<int, string>, day: imap<int, string>)

  function TimeText(c: Calendar, t: int): string { if t in c.time then c.time[t] else "" }

  function DayText(c: Calendar, d: int): string { if d in c.day then c.day[d] else "" }

  /** Different times have different, nonempty texts, and different days have different texts. */
  ghost predicate CalendarOk(c: Calendar) {
    && (forall t :: TimeText(c, t) != "")
    && (forall t, u :: TimeText(c, t) == TimeText(c, u) ==> t == u)
    && (forall d, e :: DayText(c, d) == DayText(c, e) ==> d == e)
  }

  // ---------------------------------------------------------------- words

  datatype Kind = InstallationTest | QualifiedMau | Revenue | Settlement
  datatype ReviewAction = Freeze | Verify | Reject | Dispute | Withdraw
  datatype ReviewStatus = Pending | Eligible | Rejected | Disputed | Withdrawn
  datatype ReviewRole = Buyer | Auditor
  datatype AllocationAction = Create | VerifyFinal
  datatype AllocationStatus = Recorded | VerifiedFinal
  datatype AllocationRole = Allocator | RegistryVerifier
  datatype DecisionMode = CompletedTransfer | NoTransfer
  datatype BeneficiaryType = OperatorGroup | ContractBeneficiary
  datatype AnnouncementKind = General | Update | Maintenance | Security
  datatype Severity = Info | Notice | Warning | Critical

  function KindText(w: Kind): string {
    match w
    case InstallationTest => "installation-test"
    case QualifiedMau => "monthly-qmau"
    case Revenue => "daily-revenue"
    case Settlement => "monthly-settlement"
  }

  function ReviewActionText(w: ReviewAction): string {
    match w
    case Freeze => "freeze"
    case Verify => "verify"
    case Reject => "reject"
    case Dispute => "dispute"
    case Withdraw => "withdraw"
  }

  function ReviewStatusText(w: ReviewStatus): string {
    match w
    case Pending => "review-pending"
    case Eligible => "verified-eligible"
    case Rejected => "rejected"
    case Disputed => "disputed"
    case Withdrawn => "withdrawn"
  }

  function ReviewRoleText(w: ReviewRole): string {
    match w
    case Buyer => "buyer"
    case Auditor => "auditor"
  }

  function AllocationActionText(w: AllocationAction): string {
    match w
    case Create => "create"
    case VerifyFinal => "verify"
  }

  function AllocationStatusText(w: AllocationStatus): string {
    match w
    case Recorded => "recorded"
    case VerifiedFinal => "verified-final"
  }

  function AllocationRoleText(w: AllocationRole): string {
    match w
    case Allocator => "allocator"
    case RegistryVerifier => "registry-verifier"
  }

  function DecisionModeText(w: DecisionMode): string {
    match w
    case CompletedTransfer => "completed-transfer"
    case NoTransfer => "no-transfer"
  }

  function BeneficiaryTypeText(w: BeneficiaryType): string {
    match w
    case OperatorGroup => "OPERATOR_GROUP"
    case ContractBeneficiary => "CONTRACT_BENEFICIARY"
  }

  function AnnouncementKindText(w: AnnouncementKind): string {
    match w
    case General => "GENERAL"
    case Update => "UPDATE"
    case Maintenance => "MAINTENANCE"
    case Security => "SECURITY"
  }

  function SeverityText(w: Severity): string {
    match w
    case Info => "INFO"
    case Notice => "NOTICE"
    case Warning => "WARNING"
    case Critical => "CRITICAL"
  }

  function EntryTypeText(kind: Kind): string {
    match kind
    case InstallationTest => "INSTALLATION_TEST_BATCH_ACCEPTED"
    case QualifiedMau => "QMAU_BATCH_ACCEPTED"
    case Revenue => "REVENUE_BATCH_ACCEPTED"
    case Settlement => "SETTLEMENT_CALCULATED"
  }

  function RulesetText(kind: Kind): string {
    match kind
    case InstallationTest => "installation-test-v1"
    case QualifiedMau => "qmau-v1"
    case Revenue => "net-captured-revenue-v1"
    case Settlement => "share-weighted-settlement-v1"
  }

  // ---------------------------------------------------------------- contents

  datatype Request = Request(
    path: string, scope: string, signer: string, timestamp: string, nonce: string, idempotencyKey: string,
    payloadHash: string)

  datatype EntryContent = EntryContent(
    scope: string, ledgerIndex: int, deploymentId: string, batchId: string, kind: Kind, period: string,
    qualifiedMauCount: int, batchHash: string, previousEntryHash: string, acceptedAt: int)

  datatype CheckpointContent = CheckpointContent(
    scope: string, checkpointDay: int, throughLedgerIndex: int, entryCount: int, ledgerHeadHash: string,
    previousCheckpointHash: string, generatedAt: int, registryKeyId: string)

  datatype ReviewContent = ReviewContent(
    reviewId: string, recordDay: int, targetDeploymentId: string, claimActionId: string, groupId: string,
    legalName: string, checkpointHash: string, throughLedgerIndex: int, ledgerHeadHash: string,
    merkleTreeSize: int, merkleRootHash: string, throughAuditIndex: int, auditHeadHash: string,
    throughReviewIndex: int, claimReviewHeadHash: string, throughEligibilityIndex: int,
    eligibilityHeadHash: string, throughSettlementLedgerIndex: int, settlementBoundaryCount: int,
    settlementBoundaryHash: string, deploymentCount: int, membershipHash: string, frozenAt: int, scope: string,
    registryKeyId: string)

  datatype ReviewPayload = ReviewPayload(
    reviewId: string, action: ReviewAction, status: ReviewStatus, effectiveDay: int, actorRole: ReviewRole,
    actorId: string, reference: string, evidenceHash: string, reasonCode: string, recordHash: string)

  datatype ReviewEventContent = ReviewEventContent(
    eventIndex: int, eventId: string, reviewId: string, action: ReviewAction, status: ReviewStatus,
    effectiveDay: int, actorRole: ReviewRole, actorId: string, reference: string, evidenceHash: string,
    reasonCode: string, idempotencyKey: string, payloadHash: string, recordHash: string, acceptedAt: int,
    previousEventHash: string, previousReviewEventHash: string, scope: string, registryKeyId: string)

  datatype AllocationContent = AllocationContent(
    allocationId: string, exitReviewId: string, targetDeploymentId: string, claimActionId: string,
    sourceGroupId: string, exitRecordHash: string, exitVerificationEventIndex: int,
    exitVerificationEventHash: string, exitEvidenceHash: string, decisionMode: DecisionMode, transferId: string,
    transferCompletionEventIndex: int, transferCompletionEventHash: string, throughTransferEventIndex: int,
    transferHeadHash: string, beneficiaryType: BeneficiaryType, beneficiaryId: string,
    contractReference: string, contractTermsHash: string, evidenceHash: string, settlementSourceCount: int,
    settlementSourceHash: string, currencyAllocationCount: int, currencyAllocationHash: string, createdAt: int,
    scope: string, registryKeyId: string)

  datatype AllocationPayload = AllocationPayload(
    allocationId: string, action: AllocationAction, status: AllocationStatus, actorRole: AllocationRole,
    actorId: string, reference: string, evidenceHash: string, recordHash: string)

  datatype AllocationEventContent = AllocationEventContent(
    eventIndex: int, eventId: string, allocationId: string, action: AllocationAction, status: AllocationStatus,
    actorRole: AllocationRole, actorId: string, reference: string, evidenceHash: string, idempotencyKey: string,
    payloadHash: string, recordHash: string, acceptedAt: int, previousEventHash: string,
    previousAllocationEventHash: string, scope: string, registryKeyId: string)

  datatype AnnouncementContent = AnnouncementContent(
    scope: string, sequence: int, announcementId: string, publicationId: string, kind: AnnouncementKind,
    severity: Severity, publishedAt: int, expiresAt: Option<int>, contentHash: string, linksHash: string,
    updateManifestHash: string, previousAnnouncementHash: string, acceptedAt: int, registryKeyId: string)

  datatype ReviewMember = ReviewMember(
    memberOrder: int, deploymentId: string, claimActionId: string, claimState: string, eligibilityState: string,
    claimAuditIndex: int, claimAuditHash: string, reviewIndex: int, reviewHash: string, eligibilityIndex: int,
    eligibilityHash: string)

  datatype SettlementBoundary = SettlementBoundary(
    boundaryOrder: int, settlementId: string, period: string, currencyCode: string, revision: int,
    ledgerIndex: int, settlementHash: string, sourceFingerprint: string, allocationHash: string)

  datatype SettlementSource = SettlementSource(
    boundaryOrder: int, settlementId: string, period: string, currencyCode: string, fractionDigits: int,
    revision: int, ledgerIndex: int, settlementHash: string, sourceFingerprint: string,
    settlementAllocationHash: string, distributableMinor: int)

  datatype CurrencyAllocation = CurrencyAllocation(
    allocationOrder: int, currencyCode: string, fractionDigits: int, distributableMinor: int,
    allocatedMinor: int, beneficiaryType: BeneficiaryType, beneficiaryId: string)

  /** What is hashed. */
  datatype Message =
    | RequestMessage(request: Request)
    | EntryMessage(entry: EntryContent)
    | CheckpointMessage(checkpoint: CheckpointContent)
    | ReviewMessage(review: ReviewContent)
    | ReviewPayloadMessage(reviewPayload: ReviewPayload)
    | ReviewEventMessage(reviewEvent: ReviewEventContent)
    | AllocationMessage(allocation: AllocationContent)
    | AllocationPayloadMessage(allocationPayload: AllocationPayload)
    | AllocationEventMessage(allocationEvent: AllocationEventContent)
    | AnnouncementMessage(announcement: AnnouncementContent)
    | MembersMessage(members: seq<ReviewMember>)
    | BoundariesMessage(boundaries: seq<SettlementBoundary>)
    | SourcesMessage(sources: seq<SettlementSource>)
    | CurrenciesMessage(currencies: seq<CurrencyAllocation>)

  /** An arbitrary digest, as the table of its values. */
  type Digests = t: imap<Message, string> | forall m: Message :: m in t
    ghost witness imap m: Message | true :: ""

  function Digest(g: Digests, m: Message): string { g[m] }

  /** The two messages are no collision. */
  ghost predicate Apart(g: Digests, m: Message, n: Message) { Digest(g, m) == Digest(g, n) ==> m == n }

  const ZERO_HASH: string := "sha256:0000000000000000000000000000000000000000000000000000000000000000"

  function OptionalTimeText(k: Calendar, t: Option<int>): string { if t.None? then "" else TimeText(k, t.value) }

  // ---------------------------------------------------------------- lines of each content

  function RequestLines(c: Request, k: Calendar): (r: seq<string>)
    ensures |r| == 9
  {
    [ "POST", c.path, "1", c.scope, c.signer, c.timestamp, c.nonce, c.idempotencyKey, c.payloadHash ]
  }

  function EntryContentLines(c: EntryContent, k: Calendar): (r: seq<string>)
    ensures |r| == 13
  {
    [ "1", c.scope, FormatInt(c.ledgerIndex), EntryTypeText(c.kind), c.deploymentId, c.batchId,
      KindText(c.kind), c.period, RulesetText(c.kind), FormatInt(c.qualifiedMauCount), c.batchHash,
      c.previousEntryHash, TimeText(k, c.acceptedAt) ]
  }

  function CheckpointContentLines(c: CheckpointContent, k: Calendar): (r: seq<string>)
    ensures |r| == 8
  {
    [ c.scope, DayText(k, c.checkpointDay), FormatInt(c.throughLedgerIndex), FormatInt(c.entryCount),
      c.ledgerHeadHash, c.previousCheckpointHash, TimeText(k, c.generatedAt), c.registryKeyId ]
  }

  function ReviewContentLines(c: ReviewContent, k: Calendar): (r: seq<string>)
    ensures |r| == 26
  {
    [ c.reviewId, "exit-review-v1", DayText(k, c.recordDay), c.targetDeploymentId, c.claimActionId, c.groupId,
      c.legalName, c.checkpointHash, FormatInt(c.throughLedgerIndex), c.ledgerHeadHash,
      FormatInt(c.merkleTreeSize), c.merkleRootHash, FormatInt(c.throughAuditIndex), c.auditHeadHash,
      FormatInt(c.throughReviewIndex), c.claimReviewHeadHash, FormatInt(c.throughEligibilityIndex),
      c.eligibilityHeadHash, FormatInt(c.throughSettlementLedgerIndex), FormatInt(c.settlementBoundaryCount),
      c.settlementBoundaryHash, FormatInt(c.deploymentCount), c.membershipHash, TimeText(k, c.frozenAt),
      c.scope, c.registryKeyId ]
  }

  function ReviewPayloadLines(c: ReviewPayload, k: Calendar): (r: seq<string>)
    ensures |r| == 10
  {
    [ c.reviewId, ReviewActionText(c.action), ReviewStatusText(c.status), DayText(k, c.effectiveDay),
      ReviewRoleText(c.actorRole), c.actorId, c.reference, c.evidenceHash, c.reasonCode, c.recordHash ]
  }

  function ReviewEventContentLines(c: ReviewEventContent, k: Calendar): (r: seq<string>)
    ensures |r| == 19
  {
    [ FormatInt(c.eventIndex), c.eventId, c.reviewId, ReviewActionText(c.action), ReviewStatusText(c.status),
      DayText(k, c.effectiveDay), ReviewRoleText(c.actorRole), c.actorId, c.reference, c.evidenceHash,
      c.reasonCode, c.idempotencyKey, c.payloadHash, c.recordHash, TimeText(k, c.acceptedAt),
      c.previousEventHash, c.previousReviewEventHash, c.scope, c.registryKeyId ]
  }

  function AllocationContentLines(c: AllocationContent, k: Calendar): (r: seq<string>)
    ensures |r| == 28
  {
    [ c.allocationId, "final-exit-allocation-v1", c.exitReviewId, c.targetDeploymentId, c.claimActionId,
      c.sourceGroupId, c.exitRecordHash, FormatInt(c.exitVerificationEventIndex), c.exitVerificationEventHash,
      c.exitEvidenceHash, DecisionModeText(c.decisionMode), c.transferId,
      FormatInt(c.transferCompletionEventIndex), c.transferCompletionEventHash,
      FormatInt(c.throughTransferEventIndex), c.transferHeadHash, BeneficiaryTypeText(c.beneficiaryType),
      c.beneficiaryId, c.contractReference, c.contractTermsHash, c.evidenceHash,
      FormatInt(c.settlementSourceCount), c.settlementSourceHash, FormatInt(c.currencyAllocationCount),
      c.currencyAllocationHash, TimeText(k, c.createdAt), c.scope, c.registryKeyId ]
  }

  function AllocationPayloadLines(c: AllocationPayload, k: Calendar): (r: seq<string>)
    ensures |r| == 8
  {
    [ c.allocationId, AllocationActionText(c.action), AllocationStatusText(c.status),
      AllocationRoleText(c.actorRole), c.actorId, c.reference, c.evidenceHash, c.recordHash ]
  }

  function AllocationEventContentLines(c: AllocationEventContent, k: Calendar): (r: seq<string>)
    ensures |r| == 17
  {
    [ FormatInt(c.eventIndex), c.eventId, c.allocationId, AllocationActionText(c.action),
      AllocationStatusText(c.status), AllocationRoleText(c.actorRole), c.actorId, c.reference, c.evidenceHash,
      c.idempotencyKey, c.payloadHash, c.recordHash, TimeText(k, c.acceptedAt), c.previousEventHash,
      c.previousAllocationEventHash, c.scope, c.registryKeyId ]
  }

  function AnnouncementContentLines(c: AnnouncementContent, k: Calendar): (r: seq<string>)
    ensures |r| == 15
  {
    [ "1", c.scope, FormatInt(c.sequence), c.announcementId, c.publicationId, AnnouncementKindText(c.kind),
      SeverityText(c.severity), TimeText(k, c.publishedAt), OptionalTimeText(k, c.expiresAt), c.contentHash,
      c.linksHash, c.updateManifestHash, c.previousAnnouncementHash, TimeText(k, c.acceptedAt), c.registryKeyId ]
  }

  function ReviewMemberLines(c: ReviewMember, k: Calendar): (r: seq<string>)
    ensures |r| == 11
  {
    [ FormatInt(c.memberOrder), c.deploymentId, c.claimActionId, c.claimState, c.eligibilityState,
      FormatInt(c.claimAuditIndex), c.claimAuditHash, FormatInt(c.reviewIndex), c.reviewHash,
      FormatInt(c.eligibilityIndex), c.eligibilityHash ]
  }

  function SettlementBoundaryLines(c: SettlementBoundary, k: Calendar): (r: seq<string>)
    ensures |r| == 9
  {
    [ FormatInt(c.boundaryOrder), c.settlementId, c.period, c.currencyCode, FormatInt(c.revision),
      FormatInt(c.ledgerIndex), c.settlementHash, c.sourceFingerprint, c.allocationHash ]
  }

  function SettlementSourceLines(c: SettlementSource, k: Calendar): (r: seq<string>)
    ensures |r| == 11
  {
    [ FormatInt(c.boundaryOrder), c.settlementId, c.period, c.currencyCode, FormatInt(c.fractionDigits),
      FormatInt(c.revision), FormatInt(c.ledgerIndex), c.settlementHash, c.sourceFingerprint,
      c.settlementAllocationHash, FormatInt(c.distributableMinor) ]
  }

  function CurrencyAllocationLines(c: CurrencyAllocation, k: Calendar): (r: seq<string>)
    ensures |r| == 7
  {
    [ FormatInt(c.allocationOrder), c.currencyCode, FormatInt(c.fractionDigits),
      FormatInt(c.distributableMinor), FormatInt(c.allocatedMinor), BeneficiaryTypeText(c.beneficiaryType),
      c.beneficiaryId ]
  }

  function Tag(m: Message): string {
    match m
    case RequestMessage(_) => "myscoutee-registry-request-v1"
    case EntryMessage(_) => "myscoutee-registry-ledger-entry-v1"
    case CheckpointMessage(_) => "myscoutee-registry-checkpoint-v1"
    case ReviewMessage(_) => "myscoutee-registry-exit-review-record-v1"
    case ReviewPayloadMessage(_) => "myscoutee-registry-exit-review-event-payload-v1"
    case ReviewEventMessage(_) => "myscoutee-registry-exit-review-event-v1"
    case AllocationMessage(_) => "myscoutee-registry-exit-allocation-record-v1"
    case AllocationPayloadMessage(_) => "myscoutee-registry-exit-allocation-event-payload-v1"
    case AllocationEventMessage(_) => "myscoutee-registry-exit-allocation-event-v1"
    case AnnouncementMessage(_) => "myscoutee-registry-announcement-entry-v1"
    case MembersMessage(_) => "myscoutee-registry-exit-review-members-v1"
    case BoundariesMessage(_) => "myscoutee-registry-exit-review-settlements-v1"
    case SourcesMessage(_) => "myscoutee-registry-exit-allocation-settlement-sources-v1"
    case CurrenciesMessage(_) => "myscoutee-registry-exit-allocation-currencies-v1"
  }

  function Concat(rows: seq<seq<string>>): seq<string> {
    if rows == [] then [] else rows[0] + Concat(rows[1..])
  }

  function Counted(rows: seq<seq<string>>): seq<string> {
    [FormatInt(|rows|)] + Concat(rows)
  }

  function ReviewMemberRows(s: seq<ReviewMember>, k: Calendar): (r: seq<seq<string>>)
    ensures |r| == |s| && forall i :: 0 <= i < |s| ==> r[i] == ReviewMemberLines(s[i], k)
  {
    seq(|s|, i requires 0 <= i < |s| => ReviewMemberLines(s[i], k))
  }

  function SettlementBoundaryRows(s: seq<SettlementBoundary>, k: Calendar): (r: seq<seq<string>>)
    ensures |r| == |s| && forall i :: 0 <= i < |s| ==> r[i] == SettlementBoundaryLines(s[i], k)
  {
    seq(|s|, i requires 0 <= i < |s| => SettlementBoundaryLines(s[i], k))
  }

  function SettlementSourceRows(s: seq<SettlementSource>, k: Calendar): (r: seq<seq<string>>)
    ensures |r| == |s| && forall i :: 0 <= i < |s| ==> r[i] == SettlementSourceLines(s[i], k)
  {
    seq(|s|, i requires 0 <= i < |s| => SettlementSourceLines(s[i], k))
  }

  function CurrencyAllocationRows(s: seq<CurrencyAllocation>, k: Calendar): (r: seq<seq<string>>)
    ensures |r| == |s| && forall i :: 0 <= i < |s| ==> r[i] == CurrencyAllocationLines(s[i], k)
  {
    seq(|s|, i requires 0 <= i < |s| => CurrencyAllocationLines(s[i], k))
  }

  function Body(m: Message, k: Calendar): seq<string> {
    match m
    case RequestMessage(c) => RequestLines(c, k)
    case EntryMessage(c) => EntryContentLines(c, k)
    case CheckpointMessage(c) => CheckpointContentLines(c, k)
    case ReviewMessage(c) => ReviewContentLines(c, k)
    case ReviewPayloadMessage(c) => ReviewPayloadLines(c, k)
    case ReviewEventMessage(c) => ReviewEventContentLines(c, k)
    case AllocationMessage(c) => AllocationContentLines(c, k)
    case AllocationPayloadMessage(c) => AllocationPayloadLines(c, k)
    case AllocationEventMessage(c) => AllocationEventContentLines(c, k)
    case AnnouncementMessage(c) => AnnouncementContentLines(c, k)
    case MembersMessage(s) => Counted(ReviewMemberRows(s, k))
    case BoundariesMessage(s) => Counted(SettlementBoundaryRows(s, k))
    case SourcesMessage(s) => Counted(SettlementSourceRows(s, k))
    case CurrenciesMessage(s) => Counted(CurrencyAllocationRows(s, k))
  }

  /** The lines of a message: its domain tag, then its fields. */
  function Lines(m: Message, k: Calendar): seq<string> {
    [Tag(m)] + Body(m, k)
  }

  // ---------------------------------------------------------------- injectivity

  lemma RequestInjective(c: Request, d: Request, k: Calendar)
    requires CalendarOk(k) && RequestLines(c, k) == RequestLines(d, k)
    ensures c == d
  {
    var a, b := RequestLines(c, k), RequestLines(d, k);
    assert a[0] == b[0] && a[1] == b[1] && a[2] == b[2] && a[3] == b[3] && a[4] == b[4] && a[5] == b[5]
           && a[6] == b[6] && a[7] == b[7] && a[8] == b[8];
  }

  lemma EntryContentInjective(c: EntryContent, d: EntryContent, k: Calendar)
    requires CalendarOk(k) && EntryContentLines(c, k) == EntryContentLines(d, k)
    ensures c == d
  {
    var a, b := EntryContentLines(c, k), EntryContentLines(d, k);
    assert a[0] == b[0] && a[1] == b[1] && a[2] == b[2] && a[3] == b[3] && a[4] == b[4] && a[5] == b[5]
           && a[6] == b[6] && a[7] == b[7] && a[8] == b[8] && a[9] == b[9] && a[10] == b[10] && a[11] == b[11]
           && a[12] == b[12];
    FormatIntInjective(c.ledgerIndex, d.ledgerIndex);
    FormatIntInjective(c.qualifiedMauCount, d.qualifiedMauCount);
  }

  lemma CheckpointContentInjective(c: CheckpointContent, d: CheckpointContent, k: Calendar)
    requires CalendarOk(k) && CheckpointContentLines(c, k) == CheckpointContentLines(d, k)
    ensures c == d
  {
    var a, b := CheckpointContentLines(c, k), CheckpointContentLines(d, k);
    assert a[0] == b[0] && a[1] == b[1] && a[2] == b[2] && a[3] == b[3] && a[4] == b[4] && a[5] == b[5]
           && a[6] == b[6] && a[7] == b[7];
    FormatIntInjective(c.throughLedgerIndex, d.throughLedgerIndex);
    FormatIntInjective(c.entryCount, d.entryCount);
  }

  lemma ReviewContentInjective(c: ReviewContent, d: ReviewContent, k: Calendar)
    requires CalendarOk(k) && ReviewContentLines(c, k) == ReviewContentLines(d, k)
    ensures c == d
  {
    var a, b := ReviewContentLines(c, k), ReviewContentLines(d, k);
    assert a[0] == b[0] && a[1] == b[1] && a[2] == b[2] && a[3] == b[3] && a[4] == b[4] && a[5] == b[5]
           && a[6] == b[6] && a[7] == b[7] && a[8] == b[8] && a[9] == b[9] && a[10] == b[10] && a[11] == b[11]
           && a[12] == b[12] && a[13] == b[13] && a[14] == b[14] && a[15] == b[15] && a[16] == b[16] && a[17] == b[17]
           && a[18] == b[18] && a[19] == b[19] && a[20] == b[20] && a[21] == b[21] && a[22] == b[22] && a[23] == b[23]
           && a[24] == b[24] && a[25] == b[25];
    FormatIntInjective(c.throughLedgerIndex, d.throughLedgerIndex);
    FormatIntInjective(c.merkleTreeSize, d.merkleTreeSize);
    FormatIntInjective(c.throughAuditIndex, d.throughAuditIndex);
    FormatIntInjective(c.throughReviewIndex, d.throughReviewIndex);
    FormatIntInjective(c.throughEligibilityIndex, d.throughEligibilityIndex);
    FormatIntInjective(c.throughSettlementLedgerIndex, d.throughSettlementLedgerIndex);
    FormatIntInjective(c.settlementBoundaryCount, d.settlementBoundaryCount);
    FormatIntInjective(c.deploymentCount, d.deploymentCount);
  }

  lemma ReviewPayloadInjective(c: ReviewPayload, d: ReviewPayload, k: Calendar)
    requires CalendarOk(k) && ReviewPayloadLines(c, k) == ReviewPayloadLines(d, k)
    ensures c == d
  {
    var a, b := ReviewPayloadLines(c, k), ReviewPayloadLines(d, k);
    assert a[0] == b[0] && a[1] == b[1] && a[2] == b[2] && a[3] == b[3] && a[4] == b[4] && a[5] == b[5]
           && a[6] == b[6] && a[7] == b[7] && a[8] == b[8] && a[9] == b[9];
  }

  lemma ReviewEventContentInjective(c: ReviewEventContent, d: ReviewEventContent, k: Calendar)
    requires CalendarOk(k) && ReviewEventContentLines(c, k) == ReviewEventContentLines(d, k)
    ensures c == d
  {
    var a, b := ReviewEventContentLines(c, k), ReviewEventContentLines(d, k);
    assert a[0] == b[0] && a[1] == b[1] && a[2] == b[2] && a[3] == b[3] && a[4] == b[4] && a[5] == b[5]
           && a[6] == b[6] && a[7] == b[7] && a[8] == b[8] && a[9] == b[9] && a[10] == b[10] && a[11] == b[11]
           && a[12] == b[12] && a[13] == b[13] && a[14] == b[14] && a[15] == b[15] && a[16] == b[16] && a[17] == b[17]
           && a[18] == b[18];
    FormatIntInjective(c.eventIndex, d.eventIndex);
  }

  lemma AllocationContentInjective(c: AllocationContent, d: AllocationContent, k: Calendar)
    requires CalendarOk(k) && AllocationContentLines(c, k) == AllocationContentLines(d, k)
    ensures c == d
  {
    var a, b := AllocationContentLines(c, k), AllocationContentLines(d, k);
    assert a[0] == b[0] && a[1] == b[1] && a[2] == b[2] && a[3] == b[3] && a[4] == b[4] && a[5] == b[5]
           && a[6] == b[6] && a[7] == b[7] && a[8] == b[8] && a[9] == b[9] && a[10] == b[10] && a[11] == b[11]
           && a[12] == b[12] && a[13] == b[13] && a[14] == b[14] && a[15] == b[15] && a[16] == b[16] && a[17] == b[17]
           && a[18] == b[18] && a[19] == b[19] && a[20] == b[20] && a[21] == b[21] && a[22] == b[22] && a[23] == b[23]
           && a[24] == b[24] && a[25] == b[25] && a[26] == b[26] && a[27] == b[27];
    FormatIntInjective(c.exitVerificationEventIndex, d.exitVerificationEventIndex);
    FormatIntInjective(c.transferCompletionEventIndex, d.transferCompletionEventIndex);
    FormatIntInjective(c.throughTransferEventIndex, d.throughTransferEventIndex);
    FormatIntInjective(c.settlementSourceCount, d.settlementSourceCount);
    FormatIntInjective(c.currencyAllocationCount, d.currencyAllocationCount);
  }

  lemma AllocationPayloadInjective(c: AllocationPayload, d: AllocationPayload, k: Calendar)
    requires CalendarOk(k) && AllocationPayloadLines(c, k) == AllocationPayloadLines(d, k)
    ensures c == d
  {
    var a, b := AllocationPayloadLines(c, k), AllocationPayloadLines(d, k);
    assert a[0] == b[0] && a[1] == b[1] && a[2] == b[2] && a[3] == b[3] && a[4] == b[4] && a[5] == b[5]
           && a[6] == b[6] && a[7] == b[7];
  }

  lemma AllocationEventContentInjective(c: AllocationEventContent, d: AllocationEventContent, k: Calendar)
    requires CalendarOk(k) && AllocationEventContentLines(c, k) == AllocationEventContentLines(d, k)
    ensures c == d
  {
    var a, b := AllocationEventContentLines(c, k), AllocationEventContentLines(d, k);
    assert a[0] == b[0] && a[1] == b[1] && a[2] == b[2] && a[3] == b[3] && a[4] == b[4] && a[5] == b[5]
           && a[6] == b[6] && a[7] == b[7] && a[8] == b[8] && a[9] == b[9] && a[10] == b[10] && a[11] == b[11]
           && a[12] == b[12] && a[13] == b[13] && a[14] == b[14] && a[15] == b[15] && a[16] == b[16];
    FormatIntInjective(c.eventIndex, d.eventIndex);
  }

  lemma AnnouncementContentInjective(c: AnnouncementContent, d: AnnouncementContent, k: Calendar)
    requires CalendarOk(k) && AnnouncementContentLines(c, k) == AnnouncementContentLines(d, k)
    ensures c == d
  {
    var a, b := AnnouncementContentLines(c, k), AnnouncementContentLines(d, k);
    assert a[0] == b[0] && a[1] == b[1] && a[2] == b[2] && a[3] == b[3] && a[4] == b[4] && a[5] == b[5]
           && a[6] == b[6] && a[7] == b[7] && a[8] == b[8] && a[9] == b[9] && a[10] == b[10] && a[11] == b[11]
           && a[12] == b[12] && a[13] == b[13] && a[14] == b[14];
    FormatIntInjective(c.sequence, d.sequence);
    assert c.expiresAt == d.expiresAt;
  }

  lemma ReviewMemberInjective(c: ReviewMember, d: ReviewMember, k: Calendar)
    requires CalendarOk(k) && ReviewMemberLines(c, k) == ReviewMemberLines(d, k)
    ensures c == d
  {
    var a, b := ReviewMemberLines(c, k), ReviewMemberLines(d, k);
    assert a[0] == b[0] && a[1] == b[1] && a[2] == b[2] && a[3] == b[3] && a[4] == b[4] && a[5] == b[5]
           && a[6] == b[6] && a[7] == b[7] && a[8] == b[8] && a[9] == b[9] && a[10] == b[10];
    FormatIntInjective(c.memberOrder, d.memberOrder);
    FormatIntInjective(c.claimAuditIndex, d.claimAuditIndex);
    FormatIntInjective(c.reviewIndex, d.reviewIndex);
    FormatIntInjective(c.eligibilityIndex, d.eligibilityIndex);
  }

  lemma SettlementBoundaryInjective(c: SettlementBoundary, d: SettlementBoundary, k: Calendar)
    requires CalendarOk(k) && SettlementBoundaryLines(c, k) == SettlementBoundaryLines(d, k)
    ensures c == d
  {
    var a, b := SettlementBoundaryLines(c, k), SettlementBoundaryLines(d, k);
    assert a[0] == b[0] && a[1] == b[1] && a[2] == b[2] && a[3] == b[3] && a[4] == b[4] && a[5] == b[5]
           && a[6] == b[6] && a[7] == b[7] && a[8] == b[8];
    FormatIntInjective(c.boundaryOrder, d.boundaryOrder);
    FormatIntInjective(c.revision, d.revision);
    FormatIntInjective(c.ledgerIndex, d.ledgerIndex);
  }

  lemma SettlementSourceInjective(c: SettlementSource, d: SettlementSource, k: Calendar)
    requires CalendarOk(k) && SettlementSourceLines(c, k) == SettlementSourceLines(d, k)
    ensures c == d
  {
    var a, b := SettlementSourceLines(c, k), SettlementSourceLines(d, k);
    assert a[0] == b[0] && a[1] == b[1] && a[2] == b[2] && a[3] == b[3] && a[4] == b[4] && a[5] == b[5]
           && a[6] == b[6] && a[7] == b[7] && a[8] == b[8] && a[9] == b[9] && a[10] == b[10];
    FormatIntInjective(c.boundaryOrder, d.boundaryOrder);
    FormatIntInjective(c.fractionDigits, d.fractionDigits);
    FormatIntInjective(c.revision, d.revision);
    FormatIntInjective(c.ledgerIndex, d.ledgerIndex);
    FormatIntInjective(c.distributableMinor, d.distributableMinor);
  }

  lemma CurrencyAllocationInjective(c: CurrencyAllocation, d: CurrencyAllocation, k: Calendar)
    requires CalendarOk(k) && CurrencyAllocationLines(c, k) == CurrencyAllocationLines(d, k)
    ensures c == d
  {
    var a, b := CurrencyAllocationLines(c, k), CurrencyAllocationLines(d, k);
    assert a[0] == b[0] && a[1] == b[1] && a[2] == b[2] && a[3] == b[3] && a[4] == b[4] && a[5] == b[5]
           && a[6] == b[6];
    FormatIntInjective(c.allocationOrder, d.allocationOrder);
    FormatIntInjective(c.fractionDigits, d.fractionDigits);
    FormatIntInjective(c.distributableMinor, d.distributableMinor);
    FormatIntInjective(c.allocatedMinor, d.allocatedMinor);
  }

  lemma ConcatStep(xs: seq<seq<string>>)
    requires xs != []
    ensures Concat(xs)[|xs[0]|..] == Concat(xs[1..]) && Concat(xs)[..|xs[0]|] == xs[0]
  {
  }

  /** Rows of one width can be told apart after they are concatenated. */
  lemma {:induction false} ConcatInjective(xs: seq<seq<string>>, ys: seq<seq<string>>, w: nat)
    requires |xs| == |ys| && Concat(xs) == Concat(ys)
    requires forall i :: 0 <= i < |xs| ==> |xs[i]| == w && |ys[i]| == w
    ensures xs == ys
  {
    if xs != [] {
      ConcatStep(xs);
      ConcatStep(ys);
      ConcatInjective(xs[1..], ys[1..], w);
      assert xs == [xs[0]] + xs[1..] && ys == [ys[0]] + ys[1..];
    }
  }

  lemma CountedInjective(xs: seq<seq<string>>, ys: seq<seq<string>>, w: nat)
    requires Counted(xs) == Counted(ys)
    requires forall i :: 0 <= i < |xs| ==> |xs[i]| == w
    requires forall i :: 0 <= i < |ys| ==> |ys[i]| == w
    ensures xs == ys
  {
    assert Counted(xs)[0] == FormatInt(|xs|) && Counted(ys)[0] == FormatInt(|ys|);
    FormatIntInjective(|xs|, |ys|);
    assert Counted(xs)[1..] == Concat(xs) && Counted(ys)[1..] == Concat(ys);
    ConcatInjective(xs, ys, w);
  }

  lemma ReviewMemberRowsInjective(s: seq<ReviewMember>, t: seq<ReviewMember>, k: Calendar)
    requires CalendarOk(k) && Counted(ReviewMemberRows(s, k)) == Counted(ReviewMemberRows(t, k))
    ensures s == t
  {
    CountedInjective(ReviewMemberRows(s, k), ReviewMemberRows(t, k), 11);
    forall i | 0 <= i < |s|
      ensures s[i] == t[i]
    {
      assert ReviewMemberRows(s, k)[i] == ReviewMemberRows(t, k)[i];
      ReviewMemberInjective(s[i], t[i], k);
    }
  }

  lemma SettlementBoundaryRowsInjective(s: seq<SettlementBoundary>, t: seq<SettlementBoundary>, k: Calendar)
    requires CalendarOk(k) && Counted(SettlementBoundaryRows(s, k)) == Counted(SettlementBoundaryRows(t, k))
    ensures s == t
  {
    CountedInjective(SettlementBoundaryRows(s, k), SettlementBoundaryRows(t, k), 9);
    forall i | 0 <= i < |s|
      ensures s[i] == t[i]
    {
      assert SettlementBoundaryRows(s, k)[i] == SettlementBoundaryRows(t, k)[i];
      SettlementBoundaryInjective(s[i], t[i], k);
    }
  }

  lemma SettlementSourceRowsInjective(s: seq<SettlementSource>, t: seq<SettlementSource>, k: Calendar)
    requires CalendarOk(k) && Counted(SettlementSourceRows(s, k)) == Counted(SettlementSourceRows(t, k))
    ensures s == t
  {
    CountedInjective(SettlementSourceRows(s, k), SettlementSourceRows(t, k), 11);
    forall i | 0 <= i < |s|
      ensures s[i] == t[i]
    {
      assert SettlementSourceRows(s, k)[i] == SettlementSourceRows(t, k)[i];
      SettlementSourceInjective(s[i], t[i], k);
    }
  }

  lemma CurrencyAllocationRowsInjective(s: seq<CurrencyAllocation>, t: seq<CurrencyAllocation>, k: Calendar)
    requires CalendarOk(k) && Counted(CurrencyAllocationRows(s, k)) == Counted(CurrencyAllocationRows(t, k))
    ensures s == t
  {
    CountedInjective(CurrencyAllocationRows(s, k), CurrencyAllocationRows(t, k), 7);
    forall i | 0 <= i < |s|
      ensures s[i] == t[i]
    {
      assert CurrencyAllocationRows(s, k)[i] == CurrencyAllocationRows(t, k)[i];
      CurrencyAllocationInjective(s[i], t[i], k);
    }
  }

  /** A number for each kind of message: the length of its tag, apart from one. */
  function KindOf(m: Message): nat {
    match m
    case RequestMessage(_) => 29
    case EntryMessage(_) => 34
    case CheckpointMessage(_) => 32
    case ReviewMessage(_) => 40
    case ReviewPayloadMessage(_) => 47
    case ReviewEventMessage(_) => 39
    case AllocationMessage(_) => 44
    case AllocationPayloadMessage(_) => 51
    case AllocationEventMessage(_) => 43
    case AnnouncementMessage(_) => 0
    case MembersMessage(_) => 41
    case BoundariesMessage(_) => 45
    case SourcesMessage(_) => 56
    case CurrenciesMessage(_) => 48
  }

  /** The kind can be read off the tag. */
  function KindOfTag(tag: string): nat {
    if |tag| == 40 && tag[19] == 'a' then 0 else |tag|
  }

  lemma TagTellsKind(m: Message)
    ensures KindOfTag(Tag(m)) == KindOf(m)
  {
  }

  predicate IsList(m: Message) {
    m.MembersMessage? || m.BoundariesMessage? || m.SourcesMessage? || m.CurrenciesMessage?
  }

  predicate IsReview(m: Message) { m.ReviewMessage? || m.ReviewPayloadMessage? || m.ReviewEventMessage? }

  predicate IsAllocation(m: Message) {
    m.AllocationMessage? || m.AllocationPayloadMessage? || m.AllocationEventMessage?
  }

  lemma ListBodyInjective(m: Message, n: Message, k: Calendar)
    requires CalendarOk(k) && IsList(m) && KindOf(m) == KindOf(n) && Body(m, k) == Body(n, k)
    ensures m == n
  {
    hide RequestLines, EntryContentLines, CheckpointContentLines, ReviewContentLines, ReviewPayloadLines,
         ReviewEventContentLines, AllocationContentLines, AllocationPayloadLines, AllocationEventContentLines,
         AnnouncementContentLines, Counted;
    match m
    case MembersMessage(s) => ReviewMemberRowsInjective(s, n.members, k);
    case BoundariesMessage(s) => SettlementBoundaryRowsInjective(s, n.boundaries, k);
    case SourcesMessage(s) => SettlementSourceRowsInjective(s, n.sources, k);
    case CurrenciesMessage(s) => CurrencyAllocationRowsInjective(s, n.currencies, k);
  }

  lemma ReviewBodyInjective(m: Message, n: Message, k: Calendar)
    requires CalendarOk(k) && IsReview(m) && KindOf(m) == KindOf(n) && Body(m, k) == Body(n, k)
    ensures m == n
  {
    hide RequestLines, EntryContentLines, CheckpointContentLines, ReviewContentLines, ReviewPayloadLines,
         ReviewEventContentLines, AllocationContentLines, AllocationPayloadLines, AllocationEventContentLines,
         AnnouncementContentLines, Counted;
    match m
    case ReviewMessage(c) => ReviewContentInjective(c, n.review, k);
    case ReviewPayloadMessage(c) => ReviewPayloadInjective(c, n.reviewPayload, k);
    case ReviewEventMessage(c) => ReviewEventContentInjective(c, n.reviewEvent, k);
  }

  lemma AllocationBodyInjective(m: Message, n: Message, k: Calendar)
    requires CalendarOk(k) && IsAllocation(m) && KindOf(m) == KindOf(n) && Body(m, k) == Body(n, k)
    ensures m == n
  {
    hide RequestLines, EntryContentLines, CheckpointContentLines, ReviewContentLines, ReviewPayloadLines,
         ReviewEventContentLines, AllocationContentLines, AllocationPayloadLines, AllocationEventContentLines,
         AnnouncementContentLines, Counted;
    match m
    case AllocationMessage(c) => AllocationContentInjective(c, n.allocation, k);
    case AllocationPayloadMessage(c) => AllocationPayloadInjective(c, n.allocationPayload, k);
    case AllocationEventMessage(c) => AllocationEventContentInjective(c, n.allocationEvent, k);
  }

  lemma BodyInjective(m: Message, n: Message, k: Calendar)
    requires CalendarOk(k) && KindOf(m) == KindOf(n) && Body(m, k) == Body(n, k)
    ensures m == n
  {
    hide RequestLines, EntryContentLines, CheckpointContentLines, ReviewContentLines, ReviewPayloadLines,
         ReviewEventContentLines, AllocationContentLines, AllocationPayloadLines, AllocationEventContentLines,
         AnnouncementContentLines, Counted;
    if IsList(m) {
      ListBodyInjective(m, n, k);
    } else if IsReview(m) {
      ReviewBodyInjective(m, n, k);
    } else if IsAllocation(m) {
      AllocationBodyInjective(m, n, k);
    } else {
      match m
      case RequestMessage(c) => RequestInjective(c, n.request, k);
      case EntryMessage(c) => EntryContentInjective(c, n.entry, k);
      case CheckpointMessage(c) => CheckpointContentInjective(c, n.checkpoint, k);
      case AnnouncementMessage(c) => AnnouncementContentInjective(c, n.announcement, k);
    }
  }

  /** Equal bytes come from equal messages: no two kinds coincide, and no two contents of a kind do. */
  lemma MessageInjective(m: Message, n: Message, k: Calendar)
    requires CalendarOk(k) && AllLines(Lines(m, k)) && AllLines(Lines(n, k))
    requires Canonical(Lines(m, k)) == Canonical(Lines(n, k))
    ensures m == n
  {
    CanonicalInjective(Lines(m, k), Lines(n, k));
    assert Lines(m, k)[0] == Tag(m) && Lines(n, k)[0] == Tag(n);
    TagTellsKind(m);
    TagTellsKind(n);
    assert Lines(m, k)[1..] == Body(m, k) && Lines(n, k)[1..] == Body(n, k);
    BodyInjective(m, n, k);
  }
}
