// The rows and documents Parimit stores. SHA-256, HMAC-SHA256 and Ed25519 are
// symbolic: a digest, a MAC or a signature is the term it was computed from.
// Cells that the database lets anyone write carry an extra "Other..." form.
module Evidence {
  import opened Basics
  import opened Ordering

  type Id = string

  // A row identifier from randomUUID().
  type Uuid = text: string | |text| == 36 witness "00000000-0000-4000-8000-000000000000"

  // Thirty-two random bytes in base64url.
  type Nonce = text: string | |text| == 43 witness "AAAAAAAAAAAAAAAAAAAAAAAAAAAAAAAAAAAAAAAAAAA"

  datatype Status =
    | PolicyDenied | AwaitingApproval | AuthorizedNoDispatch | Rejected | Cancelled | Expired
    | OtherStatus(text: string)

  datatype Role = Agent | Approver | Consumer | Admin

  datatype Decision = Approve | Reject

  datatype Reason =
    | PerTransactionLimitExceeded | DailyAgentLimitExceeded | PayeeBlocked | PayeeNotAllowlisted
    | HumanApprovalRequired | DistinctDualApprovalRequired
    | OtherReason(text: string)

  datatype ObservationStatus =
    | Unknown | Pending | Succeeded | Failed | Reversed | Disputed | InDoubt
    | OtherObservation(text: string)

  datatype EventType =
    | ProposalCreated | ProposalPolicyDenied | ProposalCancelled | ProposalExpired
    | HumanApprovalRecorded | HumanRejectionRecorded
    | DemoMockObservationRecorded
    | EvidenceEnvelopeIssued | EvidenceEnvelopeConsumed
    | OtherEvent(text: string)

  // ----- configuration -----

  datatype PolicyConfig = PolicyConfig(
    rulesVersion: string,
    perTransactionLimitMinor: nat,
    dailyAgentLimitMinor: nat,
    dualApprovalThresholdMinor: nat,
    maxExpirySeconds: nat,
    blockedPayees: set<string>,
    allowedPayees: Option<set<string>>)

  datatype Config = Config(
    tenantId: string,
    receiptSecret: string,
    policy: PolicyConfig,
    issuer: string,
    audience: string,
    envelopeTtlSeconds: nat,
    oidc: bool,
    trustDomain: string)

  const LOCAL_DEMO_TRUST_DOMAIN := "urn:parimit:identity-trust:local-demo-headers-v1"

  // What the constructor of ParimitService demands of its options.
  predicate ConfigOk(cfg: Config) {
    && 1 <= |cfg.tenantId| <= 128 && 1 <= |cfg.issuer| <= 512 && 1 <= |cfg.audience| <= 512
    && 1 <= |cfg.policy.rulesVersion| <= 128
    && 1 <= cfg.envelopeTtlSeconds <= 3600
    && 1 <= cfg.policy.maxExpirySeconds <= 86400
    && (if cfg.oidc then |cfg.trustDomain| == 71 else cfg.trustDomain == LOCAL_DEMO_TRUST_DOMAIN)
  }

  function ConfigDigest(cfg: Config): Digest { OfPolicyConfig(cfg.policy) }

  // ----- rows -----

  datatype Proposal = Proposal(
    idempotencyKey: string,
    agentId: string,
    onBehalfOf: Option<string>,
    amountMinor: int,
    payeeReference: string,
    purpose: string,
    expiresInSeconds: int)

  datatype PolicyDecision = PolicyDecision(
    allowed: bool,
    reasons: seq<Reason>,
    rulesVersion: string,
    configDigest: Digest,
    requiredApprovals: int,
    currentExposure: int,
    projectedExposure: int)

  // A parsed policy_reasons cell: an array of strings, or any other JSON value.
  datatype ReasonsJson = Listed(reasons: seq<Reason>) | OtherJson(text: string)

  datatype PolicySnapshot = PolicySnapshot(
    allowed: bool,
    reasons: ReasonsJson,
    rulesVersion: string,
    configDigest: Digest,
    requiredApprovals: int)

  // The canonical v3 intent document; its digest is the intent hash.
  datatype IntentPayload = IntentPayload(
    id: Id,
    tenantId: string,
    idempotencyKey: string,
    agentId: string,
    onBehalfOf: Option<string>,
    amountMinor: int,
    payeeReference: string,
    purpose: string,
    initialStatus: Status,
    policy: PolicySnapshot,
    createdAt: int,
    expiresAt: int)

  // policyReasons is None when the cell does not hold JSON.
  datatype Intent = Intent(
    id: Id,
    tenantId: string,
    idempotencyKey: string,
    requestFingerprint: Digest,
    agentId: string,
    onBehalfOf: Option<string>,
    amountMinor: int,
    payeeReference: string,
    purpose: string,
    status: Status,
    requiredApprovals: int,
    policyAllowed: bool,
    policyReasons: Option<ReasonsJson>,
    rulesVersion: string,
    initialStatus: Status,
    stateVersion: int,
    intentHash: Digest,
    createdAt: int,
    expiresAt: int)

  datatype Approval = Approval(
    intentId: Id,
    actorId: string,
    actorRole: Role,
    decision: Decision,
    intentHash: Digest,
    createdAt: int,
    receipt: Mac)

  datatype Observation = Observation(
    id: Id,
    intentId: Id,
    status: ObservationStatus,
    providerReference: Option<string>,
    observedAt: int)

  datatype EventBody = EventBody(
    intentId: Id,
    eventType: EventType,
    actorId: string,
    payload: Payload,
    occurredAt: int,
    previousHash: Digest)

  datatype AuditEvent = AuditEvent(body: EventBody, eventHash: Digest)

  datatype Envelope = Envelope(
    intentId: Id,
    tenantId: string,
    stateVersion: int,
    audience: string,
    issuanceKey: string,
    keyId: string,
    compact: CompactJws,
    claimsHash: Digest,
    nonceHash: Digest,
    issuedAt: int,
    expiresAt: int,
    consumedAt: Option<int>,
    consumedBy: Option<string>,
    consumptionKey: Option<string>)

  datatype KeyRow = KeyRow(jwk: PublicJwk, createdAt: int, attestation: Mac)

  // ----- audit payloads: JSON objects over a known set of member names -----

  datatype Field =
    | IntentHashField | TenantIdField | StateVersionField | StatusField | PolicyField | BoundaryField
    | AllowedField | ReasonsField | RulesVersionField | ConfigDigestField | RequiredApprovalsField
    | CurrentExposureField | ProjectedExposureField
    | ActorRoleField | DecisionField | ReceiptHmacField | ResultingStatusField
    | ObservationIdField | ProviderReferenceField | SourceField | RetryPermittedField | MovesMoneyField
    | EnvelopeIdField | AudienceField | KeyIdField | ClaimsHashField | JwsDigestField
    | IssuanceHashField | ExpiresAtField | ExecutionAuthorizedField
    | ConsumerIdField | ConsumptionHashField
    | OtherField(name: string)

  datatype Value =
    | Undefined | Null | Flag(flag: bool) | Number(number: int) | Text(text: string)
    | DigestText(digest: Digest) | MacText(mac: Mac) | TimeText(at: int)
    | StatusText(status: Status) | RoleText(role: Role) | DecisionText(decision: Decision)
    | ObservationText(observation: ObservationStatus) | ReasonList(reasons: seq<Reason>)
    | Record(fields: map<Field, Value>)

  datatype Payload = Json(value: Value) | Unparseable(text: string)

  function Member(v: Value, field: Field): Value {
    if v.Record? && field in v.fields then v.fields[field] else Undefined
  }

  // payload.field in the source's terms: undefined unless the payload is an object.
  function Get(p: Payload, field: Field): Value {
    if p.Json? then Member(p.value, field) else Undefined
  }

  predicate IsRecord(p: Payload) { p.Json? && p.value.Record? }

  function OptionalText(value: Option<string>): Value {
    match value case None => Null case Some(text) => Text(text)
  }

  // ----- symbolic cryptography -----

  datatype Digest =
    | Genesis
    | OfIntent(intent: IntentPayload)
    | OfEvent(event: EventBody)
    | OfPolicySnapshot(snapshot: PolicySnapshot)
    | OfPolicyConfig(config: PolicyConfig)
    | OfRequest(request: Proposal)
    | OfApprovalRecord(actorId: string, actorRole: Role, decision: Decision, intentHash: Digest,
                       createdAt: int, receipt: Mac)
    | OfApprovalSet(approvals: seq<EnvelopeApproval>)
    | OfClaims(claims: Claims)
    | OfJws(jws: CompactJws)
    | OfText(text: string)
    | NotADigest(cell: string)

  // The shape /^[0-9a-f]{64}$/.
  predicate IsSha256Hex(d: Digest) { !d.Genesis? && !d.NotADigest? }

  datatype MacPayload =
    | ApprovalReceipt(intentId: Id, intentHash: Digest, actorId: string, actorRole: Role,
                      decision: Decision, createdAt: int)
    | KeyAttestation(keyId: string, jwk: PublicJwk, createdAt: int)
    | RegistryState(rows: map<string, KeyRow>)
    | IntegrityRoot(tenantId: string, issuer: string, audience: string, ttlSeconds: nat, oidc: bool,
                    trustDomain: string, configDigest: Digest)

  datatype Mac = Hmac(secret: string, payload: MacPayload) | OtherMac(text: string)

  datatype SigningKey = SigningKey(keyId: string, keyPair: nat)

  datatype PublicJwk = Jwk(kid: string, keyPair: nat) | MalformedJwk(text: string)

  function PublicHalf(key: SigningKey): PublicJwk { Jwk(key.keyId, key.keyPair) }

  datatype Signature = Ed25519(keyPair: nat, kid: string, document: Document) | OtherSignature(text: string)

  // A compact string is its (kid, payload, signature) triple; NotJws is any string the codec refuses.
  datatype CompactJws = Jws(kid: string, document: Document, signature: Signature) | NotJws(text: string)

  // OtherDocument is a JSON object outside the authorization-envelope-v1 schema.
  datatype Document = ClaimsDocument(claims: Claims) | OtherDocument(text: string)

  function Sign(document: Document, key: SigningKey): CompactJws {
    Jws(key.keyId, document, Ed25519(key.keyPair, key.keyId, document))
  }

  predicate SignatureVerifies(compact: CompactJws, jwk: PublicJwk) {
    && compact.Jws? && jwk.Jwk?
    && jwk.kid == compact.kid
    && compact.signature == Ed25519(jwk.keyPair, compact.kid, compact.document)
  }

  // ----- envelope claims -----

  datatype EnvelopeApproval = EnvelopeApproval(
    subject: string,
    actorRole: Role,
    decision: Decision,
    intentHash: Digest,
    decidedAt: int,
    recordDigest: Digest)

  datatype Claims = Claims(
    issuer: string,
    subjectIntent: Id,
    audience: string,
    jti: Id,
    iat: int,
    nbf: int,
    exp: int,
    issuedAt: int,
    tenantId: string,
    oidc: bool,
    verified: bool,
    trustDomain: string,
    snapshot: IntentPayload,
    intentDigest: Digest,
    policyDigest: Digest,
    state: Status,
    authorizationStateVersion: int,
    requiredApprovals: int,
    fullyApprovedAt: int,
    approvalSetDigest: Digest,
    approvals: seq<EnvelopeApproval>,
    nonce: string,
    eventCount: int,
    chainTip: Digest)

  function ApprovalKey(a: EnvelopeApproval): Key { Key(a.decidedAt, Units(a.subject)) }

  // Seconds since the epoch of a millisecond reading (Math.floor).
  function Seconds(ms: int): int { ms / 1000 }

  // ----- one intent's evidence, and everything the service stores -----

  datatype Slice = Slice(
    intent: Intent,
    approvals: seq<Approval>,
    observations: seq<Observation>,
    events: seq<AuditEvent>,
    envelopes: map<Id, Envelope>)

  type Book = map<Id, Slice>

  datatype Registry = Registry(rows: map<string, KeyRow>, root: Option<Mac>, checkpoint: Option<Mac>)

  function Last<T>(xs: seq<T>): T
    requires xs != []
  {
    xs[|xs| - 1]
  }

  function Tip(events: seq<AuditEvent>): Digest {
    if events == [] then Genesis else Last(events).eventHash
  }
}
