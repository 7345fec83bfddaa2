// What verifyIntegrity recomputes about one intent, stated declaratively.
// IntegrityChecker.dfy holds the loops that compute it.
module Integrity {
  import opened Ordering
  import opened Basics
  import opened Evidence

  // ----- the intent document -----

  // intentPayloadFromRow: the read-side document of a stored v3 row.
  function PayloadFromRow(cfg: Config, row: Intent): IntentPayload
    requires row.policyReasons.Some?
  {
    IntentPayload(
      row.id, row.tenantId, row.idempotencyKey, row.agentId, row.onBehalfOf, row.amountMinor,
      row.payeeReference, row.purpose, row.initialStatus,
      PolicySnapshot(row.policyAllowed, row.policyReasons.value, row.rulesVersion, ConfigDigest(cfg),
                     row.requiredApprovals),
      row.createdAt, row.expiresAt)
  }

  predicate IntentHashValid(cfg: Config, row: Intent) {
    row.policyReasons.Some? && OfIntent(PayloadFromRow(cfg, row)) == row.intentHash
  }

  // ----- policy columns -----

  predicate IsApprovalReason(r: Reason) { r.HumanApprovalRequired? || r.DistinctDualApprovalRequired? }

  function Approving(reasons: seq<Reason>): seq<Reason> {
    if reasons == [] then []
    else (if IsApprovalReason(reasons[0]) then [reasons[0]] else []) + Approving(reasons[1..])
  }

  function Denying(reasons: seq<Reason>): seq<Reason> {
    if reasons == [] then []
    else (if IsApprovalReason(reasons[0]) then [] else [reasons[0]]) + Denying(reasons[1..])
  }

  predicate AllDistinct<T(==)>(xs: seq<T>) { forall i, j :: 0 <= i < j < |xs| ==> xs[i] != xs[j] }

  function InitialStatus(allowed: bool): Status { if allowed then AwaitingApproval else PolicyDenied }

  function ApprovalReason(required: int): Reason {
    if required == 2 then DistinctDualApprovalRequired else HumanApprovalRequired
  }

  predicate ReasonsConsistent(row: Intent, reasons: seq<Reason>) {
    && AllDistinct(reasons)
    && Approving(reasons) == [ApprovalReason(row.requiredApprovals)]
    && (row.policyAllowed <==> Denying(reasons) == [])
  }

  predicate RowConsistent(cfg: Config, row: Intent) {
    && row.tenantId == cfg.tenantId
    && !row.status.OtherStatus?
    && row.initialStatus == InitialStatus(row.policyAllowed)
    && (row.requiredApprovals == 1 || row.requiredApprovals == 2)
    && row.rulesVersion != ""
    && row.policyReasons.Some? && row.policyReasons.value.Listed?
    && ReasonsConsistent(row, row.policyReasons.value.reasons)
  }

  // ----- approvals -----

  function Receipt(cfg: Config, id: Id, a: Approval): Mac {
    Hmac(cfg.receiptSecret, ApprovalReceipt(id, a.intentHash, a.actorId, a.actorRole, a.decision, a.createdAt))
  }

  predicate ReceiptValid(cfg: Config, row: Intent, a: Approval) {
    a.receipt == Receipt(cfg, row.id, a) && a.intentHash == row.intentHash
  }

  predicate IsHumanRole(role: Role) { role.Approver? || role.Admin? }

  predicate Repeated(approvals: seq<Approval>, i: nat)
    requires i < |approvals|
  {
    exists j :: 0 <= j < i && approvals[j].actorId == approvals[i].actorId
  }

  predicate SemanticsValid(row: Intent, approvals: seq<Approval>, i: nat)
    requires i < |approvals|
  {
    var a := approvals[i];
    && a.actorId != "" && a.actorId != row.agentId
    && IsHumanRole(a.actorRole)
    && row.createdAt <= a.createdAt < row.expiresAt
    && !Repeated(approvals, i)
  }

  // validApproveCount / validRejectCount after the first n rows.
  function ValidCount(cfg: Config, row: Intent, approvals: seq<Approval>, n: nat, decision: Decision): nat
    requires n <= |approvals|
  {
    if n == 0 then 0
    else
      var i := n - 1;
      ValidCount(cfg, row, approvals, i, decision)
      + (if ReceiptValid(cfg, row, approvals[i]) && SemanticsValid(row, approvals, i)
            && approvals[i].decision == decision
         then 1 else 0)
  }

  ghost predicate ReceiptsValid(cfg: Config, row: Intent, approvals: seq<Approval>) {
    forall i :: 0 <= i < |approvals| ==> ReceiptValid(cfg, row, approvals[i])
  }

  ghost predicate ApprovalsConsistent(row: Intent, approvals: seq<Approval>) {
    forall i :: 0 <= i < |approvals| ==> SemanticsValid(row, approvals, i)
  }

  // ----- the hash chain -----

  function PreviousHash(events: seq<AuditEvent>, i: nat): Digest
    requires i < |events|
  {
    if i == 0 then Genesis else events[i - 1].eventHash
  }

  predicate LinkValid(id: Id, events: seq<AuditEvent>, i: nat)
    requires i < |events|
  {
    var body := events[i].body;
    && body.intentId == id
    && body.previousHash == PreviousHash(events, i)
    && events[i].eventHash == OfEvent(body)
  }

  predicate TimeValid(createdAt: int, events: seq<AuditEvent>, i: nat)
    requires i < |events|
  {
    && createdAt <= events[i].body.occurredAt
    && (i > 0 ==> events[i - 1].body.occurredAt <= events[i].body.occurredAt)
  }

  predicate EventValid(row: Intent, events: seq<AuditEvent>, i: nat)
    requires i < |events|
  {
    events[i].body.payload.Json? && LinkValid(row.id, events, i) && TimeValid(row.createdAt, events, i)
  }

  ghost predicate ChainValid(row: Intent, events: seq<AuditEvent>) {
    forall i :: 0 <= i < |events| ==> EventValid(row, events, i)
  }

  // ----- the first event -----

  predicate InitialEventConsistent(cfg: Config, row: Intent, events: seq<AuditEvent>) {
    && events != []
    && var body := events[0].body;
    && var policy := Get(body.payload, PolicyField);
    && body.eventType == (if row.initialStatus == PolicyDenied then ProposalPolicyDenied else ProposalCreated)
    && IsRecord(body.payload)
    && Get(body.payload, StatusField) == StatusText(row.initialStatus)
    && Get(body.payload, IntentHashField) == DigestText(row.intentHash)
    && body.occurredAt == row.createdAt
    && policy.Record?
    && Member(policy, AllowedField) == Flag(row.policyAllowed)
    && Member(policy, RulesVersionField) == Text(row.rulesVersion)
    && Member(policy, RequiredApprovalsField) == Number(row.requiredApprovals)
    && row.policyReasons.Some? && row.policyReasons.value.Listed?
    && Member(policy, ReasonsField) == ReasonList(row.policyReasons.value.reasons)
    && Member(policy, ConfigDigestField) == DigestText(ConfigDigest(cfg))
  }

  predicate InitialTenantStateConsistent(cfg: Config, events: seq<AuditEvent>) {
    && events != []
    && Get(events[0].body.payload, TenantIdField) == Text(cfg.tenantId)
    && Get(events[0].body.payload, StateVersionField) == Number(1)
  }

  // ----- events by kind -----

  predicate IsReview(t: EventType) { t.HumanApprovalRecorded? || t.HumanRejectionRecorded? }
  predicate IsTerminal(t: EventType) { t.ProposalCancelled? || t.ProposalExpired? }
  predicate IsObservation(t: EventType) { t.DemoMockObservationRecorded? }
  predicate IsIssue(t: EventType) { t.EvidenceEnvelopeIssued? }
  predicate IsConsume(t: EventType) { t.EvidenceEnvelopeConsumed? }

  function Select(events: seq<AuditEvent>, kind: EventType -> bool): (selected: seq<AuditEvent>)
    ensures |selected| <= |events|
  {
    if events == [] then []
    else Select(events[..|events| - 1], kind) + (if kind(Last(events).body.eventType) then [Last(events)] else [])
  }

  lemma {:induction false} SelectSnoc(events: seq<AuditEvent>, e: AuditEvent, kind: EventType -> bool)
    ensures Select(events + [e], kind) == Select(events, kind) + (if kind(e.body.eventType) then [e] else [])
  {
    assert (events + [e])[..|events|] == events;
  }

  function CountTrue(marks: seq<bool>): nat {
    if marks == [] then 0 else (if marks[|marks| - 1] then 1 else 0) + CountTrue(marks[..|marks| - 1])
  }

  // ----- approvals against their review events -----

  function ReviewType(decision: Decision): EventType {
    if decision == Approve then HumanApprovalRecorded else HumanRejectionRecorded
  }

  predicate ReviewMatches(e: AuditEvent, a: Approval) {
    && IsRecord(e.body.payload)
    && e.body.eventType == ReviewType(a.decision)
    && e.body.actorId == a.actorId
    && e.body.occurredAt == a.createdAt
    && Get(e.body.payload, ActorRoleField) == RoleText(a.actorRole)
    && Get(e.body.payload, DecisionField) == DecisionText(a.decision)
    && Get(e.body.payload, IntentHashField) == DigestText(a.intentHash)
    && Get(e.body.payload, ReceiptHmacField) == MacText(a.receipt)
  }

  function ReviewMarks(events: seq<AuditEvent>, a: Approval): seq<bool> {
    seq(|events|, i requires 0 <= i < |events| => ReviewMatches(events[i], a))
  }

  ghost predicate ReviewsConsistent(approvals: seq<Approval>, events: seq<AuditEvent>) {
    && |Select(events, IsReview)| == |approvals|
    && forall i :: 0 <= i < |approvals| ==> CountTrue(ReviewMarks(events, approvals[i])) == 1
  }

  // ----- observations against their events -----

  function ObservationFields(o: Observation): map<Field, Value> {
    map[StatusField := ObservationText(o.status),
        ProviderReferenceField := OptionalText(o.providerReference),
        SourceField := Text("DEMO_MOCK"),
        RetryPermittedField := Flag(false),
        MovesMoneyField := Flag(false)]
  }

  predicate ObservationMatches(e: AuditEvent, o: Observation) {
    && e.body.occurredAt == o.observedAt
    && IsRecord(e.body.payload)
    && e.body.payload.value.fields ==
         if ObservationIdField in e.body.payload.value.fields
         then ObservationFields(o)[ObservationIdField := Text(o.id)]
         else ObservationFields(o)
  }

  predicate ObservationSemanticsValid(row: Intent, o: Observation) {
    && o.id != "" && !o.status.OtherObservation?
    && row.createdAt <= o.observedAt
    && (o.providerReference.Some? ==> 1 <= |o.providerReference.value| <= 200)
  }

  // Some row before n froze the stream.
  predicate FrozenBefore(observations: seq<Observation>, n: nat)
    requires n <= |observations|
  {
    exists j :: 0 <= j < n && observations[j].status.InDoubt?
  }

  ghost predicate ObservationsConsistent(row: Intent, observations: seq<Observation>, events: seq<AuditEvent>) {
    && |Select(events, IsObservation)| == |observations|
    && (forall i :: 0 <= i < |observations| ==> !FrozenBefore(observations, i))
    && (forall i :: 0 <= i < |observations| ==> ObservationSemanticsValid(row, observations[i]))
    && (forall i :: 0 <= i < |observations| ==> ObservationMatches(Select(events, IsObservation)[i], observations[i]))
  }

  // ----- the signing-key registry -----

  predicate KeyAttested(cfg: Config, keyId: string, row: KeyRow) {
    && row.jwk.Jwk?
    && row.attestation == Hmac(cfg.receiptSecret, KeyAttestation(keyId, row.jwk, row.createdAt))
  }

  ghost predicate RegistryValid(cfg: Config, reg: Registry) {
    && (forall k :: k in reg.rows ==> KeyAttested(cfg, k, reg.rows[k]))
    && reg.checkpoint == Some(Hmac(cfg.receiptSecret, RegistryState(reg.rows)))
  }

  // trustedEnvelopePublicJwk: None where the source throws.
  ghost function TrustedJwk(cfg: Config, reg: Registry, keyId: string): Option<PublicJwk> {
    if RegistryValid(cfg, reg) && keyId in reg.rows then Some(reg.rows[keyId].jwk) else None
  }

  // ----- envelope claims -----

  predicate SubjectsDistinct(approvals: seq<EnvelopeApproval>) {
    forall i, j :: 0 <= i < j < |approvals| ==> approvals[i].subject != approvals[j].subject
  }

  predicate EnvelopeApprovalValid(c: Claims, a: EnvelopeApproval) {
    && IsHumanRole(a.actorRole) && a.decision == Approve
    && a.intentHash == c.intentDigest
    && IsSha256Hex(a.recordDigest)
    && c.snapshot.createdAt <= a.decidedAt < c.snapshot.expiresAt
    && a.decidedAt <= c.issuedAt
  }

  // strictEnvelopeClaims on a document that has the schema's members.
  predicate StrictClaims(c: Claims) {
    && c.iat == c.nbf && c.iat < c.exp && Seconds(c.issuedAt) == c.iat
    && c.verified == c.oidc && (if c.oidc then |c.trustDomain| == 71 else c.trustDomain == LOCAL_DEMO_TRUST_DOMAIN)
    && c.snapshot.initialStatus == AwaitingApproval
    && c.snapshot.policy.allowed && c.snapshot.policy.reasons.Listed? && IsSha256Hex(c.snapshot.policy.configDigest)
    && IsSha256Hex(c.intentDigest) && IsSha256Hex(c.policyDigest) && IsSha256Hex(c.approvalSetDigest)
    && c.state == AuthorizedNoDispatch
    && c.authorizationStateVersion >= 2
    && (c.requiredApprovals == 1 || c.requiredApprovals == 2)
    && |c.approvals| == c.requiredApprovals
    && c.snapshot.tenantId == c.tenantId
    && c.subjectIntent == c.snapshot.id
    && c.requiredApprovals == c.snapshot.policy.requiredApprovals
    && c.authorizationStateVersion == |c.approvals| + 1
    && SubjectsDistinct(c.approvals)
    && SortOn(c.approvals, ApprovalKey) == c.approvals
    && c.fullyApprovedAt == Last(c.approvals).decidedAt
    && c.fullyApprovedAt <= c.issuedAt
    && c.snapshot.createdAt <= c.issuedAt < c.exp * 1000
    && (forall i :: 0 <= i < |c.approvals| ==> EnvelopeApprovalValid(c, c.approvals[i]))
    && c.snapshot.createdAt < c.snapshot.expiresAt
    && c.exp * 1000 <= c.snapshot.expiresAt
    && c.eventCount >= 1 && IsSha256Hex(c.chainTip)
  }

  // The claims a trusted key signed, or None where parsing, verifying or the schema check throws.
  ghost function VerifiedClaims(cfg: Config, reg: Registry, keyId: string, compact: CompactJws): Option<Claims> {
    var jwk := TrustedJwk(cfg, reg, keyId);
    if jwk.Some? && SignatureVerifies(compact, jwk.value)
       && compact.document.ClaimsDocument? && StrictClaims(compact.document.claims)
    then Some(compact.document.claims) else None
  }

  // ----- envelopes against their events -----

  predicate IssueMatches(events: seq<AuditEvent>, i: nat, eid: Id, env: Envelope, c: Claims)
    requires i < |events|
  {
    var body := events[i].body;
    && IsIssue(body.eventType) && IsRecord(body.payload)
    && Get(body.payload, EnvelopeIdField) == Text(eid)
    && Get(body.payload, AudienceField) == Text(env.audience)
    && Get(body.payload, StateVersionField) == Number(env.stateVersion)
    && Get(body.payload, KeyIdField) == Text(env.keyId)
    && Get(body.payload, ClaimsHashField) == DigestText(env.claimsHash)
    && Get(body.payload, JwsDigestField) == DigestText(OfJws(env.compact))
    && Get(body.payload, IssuanceHashField) == DigestText(OfText(env.issuanceKey))
    && Get(body.payload, ExpiresAtField) == TimeText(env.expiresAt)
    && Get(body.payload, ExecutionAuthorizedField) == Flag(false)
    && Get(body.payload, MovesMoneyField) == Flag(false)
    && i == c.eventCount
    && body.previousHash == c.chainTip
    && body.occurredAt == env.issuedAt
  }

  predicate ConsumeMatches(body: EventBody, eid: Id, env: Envelope) {
    && IsConsume(body.eventType) && IsRecord(body.payload)
    && Get(body.payload, EnvelopeIdField) == Text(eid)
    && Get(body.payload, AudienceField) == Text(env.audience)
    && env.consumedBy.Some? && Get(body.payload, ConsumerIdField) == Text(env.consumedBy.value)
    && env.consumptionKey.Some?
    && Get(body.payload, ConsumptionHashField) == DigestText(OfText(env.consumptionKey.value))
    && body.actorId == env.consumedBy.value
    && Some(body.occurredAt) == env.consumedAt
    && Get(body.payload, StateVersionField) == Number(env.stateVersion)
    && Get(body.payload, ExecutionAuthorizedField) == Flag(false)
    && Get(body.payload, MovesMoneyField) == Flag(false)
  }

  function IssueMarks(events: seq<AuditEvent>, eid: Id, env: Envelope, c: Claims): seq<bool> {
    seq(|events|, i requires 0 <= i < |events| => IssueMatches(events, i, eid, env, c))
  }

  function ConsumeMarks(events: seq<AuditEvent>, eid: Id, env: Envelope): seq<bool> {
    seq(|events|, i requires 0 <= i < |events| => ConsumeMatches(events[i].body, eid, env))
  }

  predicate ConsumptionColumnsConsistent(env: Envelope) {
    if env.consumedAt.Some?
    then env.consumedBy.Some? && env.consumptionKey.Some?
         && env.issuedAt <= env.consumedAt.value < env.expiresAt
    else env.consumedBy.None? && env.consumptionKey.None?
  }

  ghost predicate EnvelopeValid(cfg: Config, reg: Registry, id: Id, events: seq<AuditEvent>, eid: Id, env: Envelope) {
    var claims := VerifiedClaims(cfg, reg, env.keyId, env.compact);
    && claims.Some?
    && var c := claims.value;
    && c.jti == eid && c.snapshot.id == id
    && c.tenantId == env.tenantId && c.audience == env.audience
    && c.authorizationStateVersion == env.stateVersion
    && env.compact.kid == env.keyId
    && env.claimsHash == OfClaims(c) && env.nonceHash == OfText(c.nonce)
    && c.issuedAt == env.issuedAt && Seconds(env.issuedAt) == c.iat
    && c.exp * 1000 == env.expiresAt
    && ConsumptionColumnsConsistent(env)
    && CountTrue(IssueMarks(events, eid, env, c)) == 1
    && CountTrue(ConsumeMarks(events, eid, env)) == (if env.consumedAt.Some? then 1 else 0)
  }

  function Consumed(envelopes: map<Id, Envelope>): set<Id> {
    set e | e in envelopes && envelopes[e].consumedAt.Some?
  }

  ghost predicate EnvelopesConsistent(cfg: Config, reg: Registry, s: Slice) {
    && |Select(s.events, IsIssue)| == |s.envelopes|
    && (forall e :: e in s.envelopes ==> EnvelopeValid(cfg, reg, s.intent.id, s.events, e, s.envelopes[e]))
    && |Select(s.events, IsConsume)| == |Consumed(s.envelopes)|
  }

  // ----- status and version as the log tells them -----

  predicate IsReviewOutcome(v: Value) {
    v == StatusText(AwaitingApproval) || v == StatusText(AuthorizedNoDispatch) || v == StatusText(Rejected)
  }

  function StatusAfter(before: Option<Status>, body: EventBody): Option<Status> {
    match body.eventType
    case ProposalCreated => Some(AwaitingApproval)
    case ProposalPolicyDenied => Some(PolicyDenied)
    case ProposalCancelled => Some(Cancelled)
    case ProposalExpired => Some(Expired)
    case HumanApprovalRecorded | HumanRejectionRecorded =>
      var result := Get(body.payload, ResultingStatusField);
      if IsReviewOutcome(result) then Some(result.status) else before
    case _ => before
  }

  function AuditedStatus(events: seq<AuditEvent>): Option<Status> {
    if events == [] then None
    else StatusAfter(AuditedStatus(events[..|events| - 1]), Last(events).body)
  }

  lemma {:induction false} AuditedStatusSnoc(events: seq<AuditEvent>, e: AuditEvent)
    ensures AuditedStatus(events + [e]) == StatusAfter(AuditedStatus(events), e.body)
  {
    assert (events + [e])[..|events|] == events;
  }

  ghost predicate OutcomesValid(events: seq<AuditEvent>) {
    forall i :: 0 <= i < |events| && IsReview(events[i].body.eventType) ==>
      IsReviewOutcome(Get(events[i].body.payload, ResultingStatusField))
  }

  function ExpectedVersion(events: seq<AuditEvent>): int {
    1 + |Select(events, IsReview)| + |Select(events, IsTerminal)|
  }

  ghost predicate StatusConsistent(row: Intent, events: seq<AuditEvent>) {
    && OutcomesValid(events)
    && AuditedStatus(events) == Some(row.status)
    && |Select(events, IsTerminal)| <= 1
    && row.stateVersion == ExpectedVersion(events)
  }

  // The threshold rules, on the counts of valid APPROVE and REJECT rows.
  predicate ThresholdConsistent(row: Intent, approvalRows: nat, approves: nat, rejects: nat, observationRows: nat) {
    && (row.policyAllowed <==> row.status != PolicyDenied)
    && (row.status == PolicyDenied ==> approvalRows == 0)
    && (row.status == AwaitingApproval ==> rejects == 0 && approves < row.requiredApprovals)
    && (row.status == AuthorizedNoDispatch ==> row.policyAllowed && rejects == 0 && approves >= row.requiredApprovals)
    && (row.status == Rejected ==> row.policyAllowed && rejects == 1 && approves < row.requiredApprovals)
    && (row.status == Cancelled || row.status == Expired ==>
          row.policyAllowed && rejects == 0 && approves < row.requiredApprovals)
    && (observationRows > 0 ==> row.status == AuthorizedNoDispatch)
  }

  ghost predicate StateConsistent(cfg: Config, reg: Registry, s: Slice) {
    && RowConsistent(cfg, s.intent)
    && ApprovalsConsistent(s.intent, s.approvals)
    && InitialEventConsistent(cfg, s.intent, s.events)
    && InitialTenantStateConsistent(cfg, s.events)
    && ReviewsConsistent(s.approvals, s.events)
    && ObservationsConsistent(s.intent, s.observations, s.events)
    && EnvelopesConsistent(cfg, reg, s)
    && StatusConsistent(s.intent, s.events)
    && ThresholdConsistent(s.intent, |s.approvals|,
                           ValidCount(cfg, s.intent, s.approvals, |s.approvals|, Approve),
                           ValidCount(cfg, s.intent, s.approvals, |s.approvals|, Reject),
                           |s.observations|)
  }

  // verifyIntegrity(id).valid
  ghost predicate Green(cfg: Config, reg: Registry, s: Slice) {
    && IntentHashValid(cfg, s.intent)
    && ReceiptsValid(cfg, s.intent, s.approvals)
    && ChainValid(s.intent, s.events)
    && StateConsistent(cfg, reg, s)
  }
}
