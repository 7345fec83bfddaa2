// What each ParimitService operation does to one intent's evidence and to the whole
// store, as functions of the clock readings, row ids and nonces it was given.
module Operations {
  import opened Ordering
  import opened Basics
  import opened Evidence
  import opened Integrity

  datatype Error =
    | ValidationError | NotFound | Forbidden | HumanApproverRequired
    | IntegrityFailure | IntentHashMismatchError
    | AgentCannotApprove | InvalidState | ProposalExpiredError | DuplicateApprover
    | ClockRollbackDetected | IdempotencyConflict | SqlConstraint
    | EnvelopeAudienceNotAllowed | EnvelopeExpiryExceedsIntent | EnvelopeInvalid | EnvelopeExpired
    | EnvelopeReplayDetected | MalformedEnvelope | InDoubtFrozen
    | ReceiptKeyMismatch | SigningKeyIntegrityFailure | SigningKeyConflict | TrustRootMissing

  datatype Result<+T> = Ok(value: T) | Err(error: Error)

  // ----- appendAudit -----

  predicate CanAppend(s: Slice, at: int) {
    s.intent.createdAt <= at && (s.events != [] ==> Last(s.events).body.occurredAt <= at)
  }

  function NewEvent(s: Slice, eventType: EventType, actorId: string, payload: Payload, at: int): AuditEvent {
    var body := EventBody(s.intent.id, eventType, actorId, payload, at, Tip(s.events));
    AuditEvent(body, OfEvent(body))
  }

  function Append(s: Slice, eventType: EventType, actorId: string, payload: Payload, at: int): Slice {
    s.(events := s.events + [NewEvent(s, eventType, actorId, payload, at)])
  }

  // ----- payloads -----

  function PolicyRecord(d: PolicyDecision): Value {
    Record(map[AllowedField := Flag(d.allowed),
               ReasonsField := ReasonList(d.reasons),
               RulesVersionField := Text(d.rulesVersion),
               ConfigDigestField := DigestText(d.configDigest),
               RequiredApprovalsField := Number(d.requiredApprovals),
               CurrentExposureField := Number(d.currentExposure),
               ProjectedExposureField := Number(d.projectedExposure)])
  }

  function InitialPayload(row: Intent, d: PolicyDecision): Payload {
    Json(Record(map[IntentHashField := DigestText(row.intentHash),
                    TenantIdField := Text(row.tenantId),
                    StateVersionField := Number(1),
                    StatusField := StatusText(row.initialStatus),
                    PolicyField := PolicyRecord(d),
                    BoundaryField := Text("PROPOSAL_ONLY_NO_VALUE_MOVEMENT")]))
  }

  function StatusPayload(status: Status): Payload {
    Json(Record(map[StatusField := StatusText(status)]))
  }

  function ReviewPayload(a: Approval, outcome: Status): Payload {
    Json(Record(map[ActorRoleField := RoleText(a.actorRole),
                    DecisionField := DecisionText(a.decision),
                    IntentHashField := DigestText(a.intentHash),
                    ReceiptHmacField := MacText(a.receipt),
                    ResultingStatusField := StatusText(outcome)]))
  }

  function ObservationPayload(o: Observation): Payload {
    Json(Record(ObservationFields(o)[ObservationIdField := Text(o.id)]))
  }

  function IssuePayload(eid: Id, env: Envelope): Payload {
    Json(Record(map[EnvelopeIdField := Text(eid),
                    AudienceField := Text(env.audience),
                    StateVersionField := Number(env.stateVersion),
                    KeyIdField := Text(env.keyId),
                    ClaimsHashField := DigestText(env.claimsHash),
                    JwsDigestField := DigestText(OfJws(env.compact)),
                    IssuanceHashField := DigestText(OfText(env.issuanceKey)),
                    ExpiresAtField := TimeText(env.expiresAt),
                    ExecutionAuthorizedField := Flag(false),
                    MovesMoneyField := Flag(false)]))
  }

  function ConsumePayload(eid: Id, audience: string, actorId: string, key: string, stateVersion: int): Payload {
    Json(Record(map[EnvelopeIdField := Text(eid),
                    AudienceField := Text(audience),
                    ConsumerIdField := Text(actorId),
                    ConsumptionHashField := DigestText(OfText(key)),
                    StateVersionField := Number(stateVersion),
                    ExecutionAuthorizedField := Flag(false),
                    MovesMoneyField := Flag(false)]))
  }

  // ----- createIntent -----

  predicate IdentifierOk(text: string) { 1 <= |text| <= 128 }

  // The ranges normalizePaymentProposal enforces; character classes are not modelled.
  predicate ProposalOk(cfg: Config, p: Proposal) {
    && 1 <= p.amountMinor <= MAX_SAFE_INTEGER
    && 1 <= p.expiresInSeconds <= cfg.policy.maxExpirySeconds
    && (p.onBehalfOf.Some? ==> IdentifierOk(p.onBehalfOf.value))
    && IdentifierOk(p.idempotencyKey) && IdentifierOk(p.agentId)
    && 6 <= |p.payeeReference| <= 64
    && 1 <= |p.purpose| <= 500
  }

  function LowerCase(text: string): string {
    seq(|text|, i requires 0 <= i < |text| =>
      if 'A' <= text[i] <= 'Z' then ((text[i] as int) + 32) as char else text[i])
  }

  function DenialReasons(policy: PolicyConfig, exposure: int, p: Proposal): seq<Reason> {
    var payee := LowerCase(p.payeeReference);
    (if p.amountMinor > policy.perTransactionLimitMinor then [PerTransactionLimitExceeded] else [])
    + (if exposure + p.amountMinor > policy.dailyAgentLimitMinor then [DailyAgentLimitExceeded] else [])
    + (if payee in policy.blockedPayees then [PayeeBlocked] else [])
    + (if policy.allowedPayees.Some? && payee !in policy.allowedPayees.value then [PayeeNotAllowlisted] else [])
  }

  function RequiredApprovals(policy: PolicyConfig, p: Proposal): int {
    if p.amountMinor > policy.dualApprovalThresholdMinor then 2 else 1
  }

  function DecidePolicy(cfg: Config, exposure: int, p: Proposal): PolicyDecision {
    var denial := DenialReasons(cfg.policy, exposure, p);
    var required := RequiredApprovals(cfg.policy, p);
    PolicyDecision(denial == [], denial + [ApprovalReason(required)], cfg.policy.rulesVersion, ConfigDigest(cfg),
                   required, exposure, exposure + p.amountMinor)
  }

  // currentPaymentIntentPayload: the write-side document.
  function WrittenPayload(cfg: Config, id: Id, p: Proposal, createdAt: int, expiresAt: int, d: PolicyDecision,
                          initial: Status): IntentPayload {
    IntentPayload(id, cfg.tenantId, p.idempotencyKey, p.agentId, p.onBehalfOf, p.amountMinor,
                  p.payeeReference, p.purpose, initial,
                  PolicySnapshot(d.allowed, Listed(d.reasons), d.rulesVersion, d.configDigest, d.requiredApprovals),
                  createdAt, expiresAt)
  }

  function NewIntent(cfg: Config, id: Id, p: Proposal, d: PolicyDecision, createdAt: int): Intent {
    var expiresAt := createdAt + p.expiresInSeconds * 1000;
    var initial := InitialStatus(d.allowed);
    Intent(id, cfg.tenantId, p.idempotencyKey, OfRequest(p), p.agentId, p.onBehalfOf, p.amountMinor,
           p.payeeReference, p.purpose, initial, d.requiredApprovals, d.allowed, Some(Listed(d.reasons)),
           d.rulesVersion, initial, 1, OfIntent(WrittenPayload(cfg, id, p, createdAt, expiresAt, d, initial)),
           createdAt, expiresAt)
  }

  function NewSlice(cfg: Config, id: Id, p: Proposal, d: PolicyDecision, createdAt: int): Slice {
    var row := NewIntent(cfg, id, p, d, createdAt);
    Append(Slice(row, [], [], [], map[]),
           if d.allowed then ProposalCreated else ProposalPolicyDenied, p.agentId, InitialPayload(row, d), createdAt)
  }

  // ----- approve, reject, cancel, expire -----

  function Moved(s: Slice, status: Status): Slice {
    s.(intent := s.intent.(status := status, stateVersion := s.intent.stateVersion + 1))
  }

  function ExpiredSlice(s: Slice, at: int): Slice {
    Append(Moved(s, Expired), ProposalExpired, "parimit-clock", StatusPayload(Expired), at)
  }

  function CancelledSlice(s: Slice, actorId: string, at: int): Slice {
    Append(Moved(s, Cancelled), ProposalCancelled, actorId, StatusPayload(Cancelled), at)
  }

  function NewApproval(cfg: Config, s: Slice, actorId: string, role: Role, decision: Decision, at: int): Approval {
    Approval(s.intent.id, actorId, role, decision, s.intent.intentHash, at,
             Hmac(cfg.receiptSecret, ApprovalReceipt(s.intent.id, s.intent.intentHash, actorId, role, decision, at)))
  }

  function Approves(approvals: seq<Approval>): nat {
    if approvals == [] then 0
    else Approves(approvals[..|approvals| - 1]) + (if Last(approvals).decision == Approve then 1 else 0)
  }

  function OutcomeOf(s: Slice, decision: Decision): Status {
    if decision == Reject then Rejected
    else if Approves(s.approvals) + 1 >= s.intent.requiredApprovals then AuthorizedNoDispatch
    else AwaitingApproval
  }

  function ReviewedSlice(cfg: Config, s: Slice, actorId: string, role: Role, decision: Decision, at: int): Slice {
    var a := NewApproval(cfg, s, actorId, role, decision, at);
    var outcome := OutcomeOf(s, decision);
    Append(Moved(s.(approvals := s.approvals + [a]), outcome),
           ReviewType(decision), actorId, ReviewPayload(a, outcome), at)
  }

  predicate HasReviewed(s: Slice, actorId: string) {
    exists i :: 0 <= i < |s.approvals| && s.approvals[i].actorId == actorId
  }

  // ----- mock observations -----

  // ORDER BY observed_at DESC, rowid DESC LIMIT 1
  function LatestIndex(observations: seq<Observation>): nat
    requires observations != []
    ensures LatestIndex(observations) < |observations|
  {
    if |observations| == 1 then 0
    else
      var n := |observations| - 1;
      var before := LatestIndex(observations[..n]);
      if observations[before].observedAt <= observations[n].observedAt then n else before
  }

  predicate Frozen(s: Slice) {
    s.observations != [] && s.observations[LatestIndex(s.observations)].status.InDoubt?
  }

  function ObservedSlice(s: Slice, o: Observation, actorId: string): Slice {
    Append(s.(observations := s.observations + [o]),
           DemoMockObservationRecorded, actorId, ObservationPayload(o), o.observedAt)
  }

  predicate ObservationOk(status: ObservationStatus, providerReference: Option<string>) {
    !status.OtherObservation? && (providerReference.Some? ==> 1 <= |providerReference.value| <= 200)
  }

  // ----- evidence envelopes -----

  function ToEnvelopeApproval(a: Approval): EnvelopeApproval {
    EnvelopeApproval(a.actorId, a.actorRole, a.decision, a.intentHash, a.createdAt,
                     OfApprovalRecord(a.actorId, a.actorRole, a.decision, a.intentHash, a.createdAt, a.receipt))
  }

  function ApproveRows(approvals: seq<Approval>): seq<EnvelopeApproval> {
    if approvals == [] then []
    else ApproveRows(approvals[..|approvals| - 1])
         + (if Last(approvals).decision == Approve then [ToEnvelopeApproval(Last(approvals))] else [])
  }

  function EnvelopeApprovals(s: Slice): seq<EnvelopeApproval> {
    SortOn(ApproveRows(s.approvals), ApprovalKey)
  }

  function IssuedClaims(cfg: Config, s: Slice, eid: Id, nonce: Nonce, ttl: int, at: int): Claims
    requires s.intent.policyReasons.Some? && EnvelopeApprovals(s) != []
  {
    var snapshot := PayloadFromRow(cfg, s.intent);
    var approvals := EnvelopeApprovals(s);
    Claims(cfg.issuer, s.intent.id, cfg.audience, eid,
           Seconds(at), Seconds(at), Seconds(at + ttl * 1000), at,
           cfg.tenantId, cfg.oidc, cfg.oidc, cfg.trustDomain,
           snapshot, s.intent.intentHash, OfPolicySnapshot(snapshot.policy),
           AuthorizedNoDispatch, s.intent.stateVersion, s.intent.requiredApprovals,
           Last(approvals).decidedAt, OfApprovalSet(approvals), approvals,
           nonce, |s.events|, Tip(s.events))
  }

  function NewEnvelope(cfg: Config, s: Slice, c: Claims, issuanceKey: string, signer: SigningKey): Envelope {
    Envelope(s.intent.id, cfg.tenantId, s.intent.stateVersion, c.audience, issuanceKey, signer.keyId,
             Sign(ClaimsDocument(c), signer), OfClaims(c), OfText(c.nonce), c.issuedAt, c.exp * 1000, None, None, None)
  }

  function IssuedSlice(s: Slice, eid: Id, env: Envelope, actorId: string): Slice {
    Append(s.(envelopes := s.envelopes[eid := env]),
           EvidenceEnvelopeIssued, actorId, IssuePayload(eid, env), env.issuedAt)
  }

  function ConsumedEnvelope(env: Envelope, actorId: string, key: string, at: int): Envelope {
    env.(consumedAt := Some(at), consumedBy := Some(actorId), consumptionKey := Some(key))
  }

  function ConsumedSlice(s: Slice, eid: Id, audience: string, actorId: string, key: string, at: int): Slice
    requires eid in s.envelopes
  {
    var env := s.envelopes[eid];
    Append(s.(envelopes := s.envelopes[eid := ConsumedEnvelope(env, actorId, key, at)]),
           EvidenceEnvelopeConsumed, actorId, ConsumePayload(eid, audience, actorId, key, env.stateVersion), at)
  }
}
