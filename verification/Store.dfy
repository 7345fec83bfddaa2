// The operations of ParimitService on everything it stores. Each is a function of
// the stored world, the request, every clock reading it takes, and the row ids and
// nonces it draws; a transaction either takes effect whole or leaves the world as it was.
module Store {
  import opened Basics
  import opened Evidence
  import opened Integrity
  import opened Exposure
  import opened Operations
  import opened SigningKeys

  // signer is None while the service is down.
  datatype World = World(book: Book, registry: Registry, signer: Option<SigningKey>)

  datatype Reply<+T> = Reply(world: World, result: Result<T>)

  function IntegrityError(cfg: Config, s: Slice): Error {
    if IntentHashValid(cfg, s.intent) then IntegrityFailure else IntentHashMismatchError
  }

  // ----- the lazy expiry sweep -----

  predicate Due(s: Slice, now: int) {
    s.intent.status == AwaitingApproval && s.intent.expiresAt <= now
  }

  ghost predicate SweepBlocked(book: Book, now: int) {
    exists id :: id in book && Due(book[id], now) && !CanAppend(book[id], now)
  }

  function SweptBook(book: Book, now: int): Book {
    map id | id in book :: if Due(book[id], now) then ExpiredSlice(book[id], now) else book[id]
  }

  ghost function Sweep(w: World, now: int): Reply<()> {
    if SweepBlocked(w.book, now) then Reply(w, Err(ClockRollbackDetected))
    else Reply(w.(book := SweptBook(w.book, now)), Ok(()))
  }

  // ----- createIntent -----

  predicate UsesKey(row: Intent, cfg: Config, agentId: string, key: string) {
    row.tenantId == cfg.tenantId && row.agentId == agentId && row.idempotencyKey == key
  }

  ghost function FindByKey(cfg: Config, book: Book, agentId: string, key: string): Option<Id> {
    if exists id :: id in book && UsesKey(book[id].intent, cfg, agentId, key)
    then var id :| id in book && UsesKey(book[id].intent, cfg, agentId, key); Some(id)
    else None
  }

  // policyAt is the reading decidePolicy takes, createdAt the one the row records.
  ghost function Create(cfg: Config, w: World, p: Proposal, id: Uuid, policyAt: int, createdAt: int): Reply<Id> {
    if !ProposalOk(cfg, p) then Reply(w, Err(ValidationError))
    else
      var existing := FindByKey(cfg, w.book, p.agentId, p.idempotencyKey);
      if existing.Some? then
        if w.book[existing.value].intent.requestFingerprint == OfRequest(p)
        then Reply(w, Ok(existing.value)) else Reply(w, Err(IdempotencyConflict))
      else if id in w.book then Reply(w, Err(SqlConstraint))
      else
        var d := DecidePolicy(cfg, DailyExposure(w.book, cfg.tenantId, p.agentId, policyAt), p);
        Reply(w.(book := w.book[id := NewSlice(cfg, id, p, d, createdAt)]), Ok(id))
  }

  // ----- approve, reject, cancel -----

  // The deadline branch of approveIntent and cancelIntent: the expiry commits, the call fails.
  function EnforceDeadline(w: World, id: Id, at: int): Reply<Id>
    requires id in w.book
  {
    if !CanAppend(w.book[id], at) then Reply(w, Err(ClockRollbackDetected))
    else Reply(w.(book := w.book[id := ExpiredSlice(w.book[id], at)]), Err(ProposalExpiredError))
  }

  ghost function Review(cfg: Config, w: World, id: Id, actorId: string, role: Role, decision: Decision, at: int)
    : Reply<Id> {
    if !IdentifierOk(actorId) then Reply(w, Err(ValidationError))
    else if !IsHumanRole(role) then Reply(w, Err(HumanApproverRequired))
    else if id !in w.book then Reply(w, Err(NotFound))
    else
      var s := w.book[id];
      if !Green(cfg, w.registry, s) then Reply(w, Err(IntegrityError(cfg, s)))
      else if s.intent.agentId == actorId then Reply(w, Err(AgentCannotApprove))
      else if s.intent.status != AwaitingApproval then Reply(w, Err(InvalidState))
      else if s.intent.expiresAt <= at then EnforceDeadline(w, id, at)
      else if HasReviewed(s, actorId) then Reply(w, Err(DuplicateApprover))
      else if !CanAppend(s, at) then Reply(w, Err(ClockRollbackDetected))
      else Reply(w.(book := w.book[id := ReviewedSlice(cfg, s, actorId, role, decision, at)]), Ok(id))
  }

  ghost function Cancel(cfg: Config, w: World, id: Id, actorId: string, role: Role, at: int): Reply<Id> {
    if !IdentifierOk(actorId) then Reply(w, Err(ValidationError))
    else if !role.Agent? && !role.Admin? then Reply(w, Err(Forbidden))
    else if id !in w.book || (role.Agent? && w.book[id].intent.agentId != actorId) then Reply(w, Err(NotFound))
    else
      var s := w.book[id];
      if !Green(cfg, w.registry, s) then Reply(w, Err(IntegrityError(cfg, s)))
      else if s.intent.status != AwaitingApproval then Reply(w, Err(InvalidState))
      else if s.intent.expiresAt <= at then EnforceDeadline(w, id, at)
      else if !CanAppend(s, at) then Reply(w, Err(ClockRollbackDetected))
      else Reply(w.(book := w.book[id := CancelledSlice(s, actorId, at)]), Ok(id))
  }

  // ----- recordMockObservation -----

  ghost function Observe(cfg: Config, w: World, id: Id, oid: Uuid, status: ObservationStatus,
                         providerReference: Option<string>, actorId: string, at: int): Reply<Id> {
    if !ObservationOk(status, providerReference) then Reply(w, Err(ValidationError))
    else if id !in w.book then Reply(w, Err(NotFound))
    else
      var s := w.book[id];
      if !Green(cfg, w.registry, s) then Reply(w, Err(IntegrityError(cfg, s)))
      else if s.intent.status != AuthorizedNoDispatch then Reply(w, Err(InvalidState))
      else if Frozen(s) then Reply(w, Err(InDoubtFrozen))
      else if !CanAppend(s, at) then Reply(w, Err(ClockRollbackDetected))
      else
        var o := Observation(oid, id, status, providerReference, at);
        Reply(w.(book := w.book[id := ObservedSlice(s, o, actorId)]), Ok(id))
  }

  // ----- issueAuthorizationEnvelope -----

  predicate ForState(env: Envelope, cfg: Config, s: Slice, audience: string) {
    env.tenantId == cfg.tenantId && env.stateVersion == s.intent.stateVersion && env.audience == audience
  }

  ghost function FindForState(cfg: Config, s: Slice, audience: string): Option<Id> {
    if exists e :: e in s.envelopes && ForState(s.envelopes[e], cfg, s, audience)
    then var e :| e in s.envelopes && ForState(s.envelopes[e], cfg, s, audience); Some(e)
    else None
  }

  // PRIMARY KEY (id) and UNIQUE (tenant_id, nonce_hash) over every stored envelope.
  ghost predicate EnvelopeKeysFree(book: Book, eid: Id, nonce: Nonce) {
    forall id :: id in book ==>
      eid !in book[id].envelopes
      && forall e :: e in book[id].envelopes ==> book[id].envelopes[e].nonceHash != OfText(nonce)
  }

  // parseAuthorizationEnvelope and strictEnvelopeClaims, without the signature.
  function ParsedClaims(compact: CompactJws): Option<Claims> {
    if compact.Jws? && compact.document.ClaimsDocument? && StrictClaims(compact.document.claims)
    then Some(compact.document.claims) else None
  }

  // envelopeViewFromRow: what the caller gets for a stored row.
  ghost function View(cfg: Config, reg: Registry, s: Slice, eid: Id): Result<Id>
    requires eid in s.envelopes
  {
    var env := s.envelopes[eid];
    var claims := VerifiedClaims(cfg, reg, env.keyId, env.compact);
    if claims.None? || env.claimsHash != OfClaims(claims.value) || env.nonceHash != OfText(claims.value.nonce)
       || !Green(cfg, reg, s)
    then Err(IntegrityFailure) else Ok(eid)
  }

  // An envelope exists for this intent state and audience: the same key and lifetime get it back.
  ghost function Reissue(cfg: Config, reg: Registry, s: Slice, eid: Id, key: string, ttl: int): Result<Id>
    requires eid in s.envelopes
  {
    var env := s.envelopes[eid];
    if env.issuanceKey != key then Err(IdempotencyConflict)
    else if ParsedClaims(env.compact).None? then Err(MalformedEnvelope)
    else if ParsedClaims(env.compact).value.exp - ParsedClaims(env.compact).value.iat != ttl
    then Err(IdempotencyConflict)
    else View(cfg, reg, s, eid)
  }

  ghost function FirstIssue(cfg: Config, w: World, id: Id, key: string, ttl: int, actorId: string, at: int, eid: Uuid,
                            nonce: Nonce): Reply<Id>
    requires id in w.book
  {
    var s := w.book[id];
    if s.intent.expiresAt <= at || s.intent.expiresAt < at + ttl * 1000
    then Reply(w, Err(EnvelopeExpiryExceedsIntent))
    else if |EnvelopeApprovals(s)| != s.intent.requiredApprovals || s.intent.requiredApprovals < 1
    then Reply(w, Err(IntegrityFailure))
    else if at < Last(EnvelopeApprovals(s)).decidedAt then Reply(w, Err(EnvelopeInvalid))
    else if w.signer.None? || s.intent.policyReasons.None? then Reply(w, Err(IntegrityFailure))
    else
      var c := IssuedClaims(cfg, s, eid, nonce, ttl, at);
      if !StrictClaims(c) then Reply(w, Err(IntegrityFailure))
      else if !EnvelopeKeysFree(w.book, eid, nonce) || w.signer.value.keyId !in w.registry.rows
      then Reply(w, Err(SqlConstraint))
      else if !CanAppend(s, at) then Reply(w, Err(ClockRollbackDetected))
      else
        var s' := IssuedSlice(s, eid, NewEnvelope(cfg, s, c, key, w.signer.value), actorId);
        Reply(w.(book := w.book[id := s']), View(cfg, w.registry, s', eid))
  }

  predicate AudienceOk(audience: string) { 1 <= |audience| <= 512 }

  ghost function Issue(cfg: Config, w: World, id: Id, audience: string, key: string, ttl: int, actorId: string,
                       role: Role, at: int, eid: Uuid, nonce: Nonce): Reply<Id> {
    if !AudienceOk(audience) then Reply(w, Err(ValidationError))
    else if audience != cfg.audience then Reply(w, Err(EnvelopeAudienceNotAllowed))
    else if !(1 <= ttl <= cfg.envelopeTtlSeconds) || !IdentifierOk(key) || !IdentifierOk(actorId)
    then Reply(w, Err(ValidationError))
    else if !IsHumanRole(role) then Reply(w, Err(Forbidden))
    else if id !in w.book then Reply(w, Err(NotFound))
    else
      var s := w.book[id];
      if !Green(cfg, w.registry, s) then Reply(w, Err(IntegrityError(cfg, s)))
      else if s.intent.status != AuthorizedNoDispatch then Reply(w, Err(InvalidState))
      else
        var existing := FindForState(cfg, s, audience);
        if existing.Some? then Reply(w, Reissue(cfg, w.registry, s, existing.value, key, ttl))
        else FirstIssue(cfg, w, id, key, ttl, actorId, at, eid, nonce)
  }

  // ----- verifyAuthorizationEnvelope -----

  datatype VerifyFailure =
    | SignatureOrSchemaInvalid | EnvelopeTimeInvalid | IssuerMismatch | AudienceMismatch | TenantMismatch
    | LocalIssuanceNotProven | IntentBindingInvalid

  // What a verdict says of the stored envelope; NotStored is null.
  datatype Consumption = NotStored | Unconsumed | ConsumedBy(actorId: Option<string>, at: int)

  datatype Verification = Verification(
    valid: bool,
    signatureValid: bool,
    claimsValid: bool,
    timeValid: bool,
    locallyIssued: bool,
    intentBindingValid: bool,
    consumption: Consumption,
    failures: seq<VerifyFailure>,
    claims: Option<Claims>)

  ghost function OwnerOf(book: Book, eid: Id): Option<Id> {
    if exists id :: id in book && eid in book[id].envelopes
    then var id :| id in book && eid in book[id].envelopes; Some(id)
    else None
  }

  function ConsumptionOf(env: Envelope): Consumption {
    if env.consumedAt.None? then Unconsumed else ConsumedBy(env.consumedBy, env.consumedAt.value)
  }

  // The stored row of this tenant with the claimed id, whatever its content.
  ghost function StoredConsumption(cfg: Config, book: Book, eid: Id): Consumption {
    var owner := OwnerOf(book, eid);
    if owner.None? || book[owner.value].envelopes[eid].tenantId != cfg.tenantId then NotStored
    else ConsumptionOf(book[owner.value].envelopes[eid])
  }

  predicate TimeValidNow(cfg: Config, c: Claims, nowSeconds: int) {
    && c.iat <= c.nbf && c.nbf <= nowSeconds && nowSeconds < c.exp
    && c.exp - c.iat >= 1 && c.exp - c.iat <= cfg.envelopeTtlSeconds
  }

  predicate ExactArtifact(env: Envelope, compact: CompactJws, c: Claims) {
    env.compact == compact && env.claimsHash == OfClaims(c) && env.nonceHash == OfText(c.nonce)
  }

  ghost predicate LocallyIssued(cfg: Config, book: Book, compact: CompactJws, c: Claims) {
    var owner := OwnerOf(book, c.jti);
    && owner.Some?
    && book[owner.value].envelopes[c.jti].tenantId == cfg.tenantId
    && ExactArtifact(book[owner.value].envelopes[c.jti], compact, c)
  }

  predicate IssueEventFor(e: AuditEvent, c: Claims, compact: CompactJws) {
    && IsIssue(e.body.eventType)
    && Get(e.body.payload, EnvelopeIdField) == Text(c.jti)
    && Get(e.body.payload, ClaimsHashField) == DigestText(OfClaims(c))
    && Get(e.body.payload, JwsDigestField) == DigestText(OfJws(compact))
  }

  function IssueEventMarks(events: seq<AuditEvent>, c: Claims, compact: CompactJws): seq<bool> {
    seq(|events|, i requires 0 <= i < |events| => IssueEventFor(events[i], c, compact))
  }

  ghost predicate BindingValid(cfg: Config, w: World, compact: CompactJws, c: Claims) {
    && c.snapshot.id in w.book
    && var s := w.book[c.snapshot.id];
    && Green(cfg, w.registry, s)
    && s.intent.status == AuthorizedNoDispatch
    && s.intent.tenantId == c.tenantId
    && c.oidc == cfg.oidc && c.verified == cfg.oidc && c.trustDomain == cfg.trustDomain
    && s.intent.intentHash == c.intentDigest
    && s.intent.stateVersion == c.authorizationStateVersion
    && s.intent.policyReasons.Some?
    && PayloadFromRow(cfg, s.intent) == c.snapshot
    && OfIntent(PayloadFromRow(cfg, s.intent)) == c.intentDigest
    && OfPolicySnapshot(c.snapshot.policy) == c.policyDigest
    && EnvelopeApprovals(s) == c.approvals
    && OfApprovalSet(EnvelopeApprovals(s)) == c.approvalSetDigest
    && c.subjectIntent == c.snapshot.id
    && CountTrue(IssueEventMarks(s.events, c, compact)) == 1
  }

  function When(bad: bool, f: VerifyFailure): seq<VerifyFailure> { if bad then [f] else [] }

  ghost function Verify(cfg: Config, w: World, compact: CompactJws, audience: string, now: int): Verification {
    var jwk := if compact.Jws? then TrustedJwk(cfg, w.registry, compact.kid) else None;
    var signed := jwk.Some? && SignatureVerifies(compact, jwk.value);
    if !signed || ParsedClaims(compact).None? then
      Verification(false, signed, false, false, false, false, NotStored, [SignatureOrSchemaInvalid], None)
    else
      var c := ParsedClaims(compact).value;
      var timely := TimeValidNow(cfg, c, Seconds(now));
      var local := LocallyIssued(cfg, w.book, compact, c);
      var bound := BindingValid(cfg, w, compact, c);
      var failures :=
        When(!timely, EnvelopeTimeInvalid)
        + When(c.issuer != cfg.issuer, IssuerMismatch)
        + When(!(audience == c.audience && audience == cfg.audience), AudienceMismatch)
        + When(c.tenantId != cfg.tenantId, TenantMismatch)
        + When(!local, LocalIssuanceNotProven)
        + When(!bound, IntentBindingInvalid);
      Verification(timely && local && bound && failures == [], true, true, timely, local, bound,
                   StoredConsumption(cfg, w.book, c.jti), failures, Some(c))
  }

  // ----- consumeAuthorizationEnvelope -----

  // Valid but for the time, and past exp at the second clock reading.
  ghost predicate ExpiredButOtherwiseValid(v: Verification, expiryAt: int) {
    && v.claims.Some? && v.signatureValid && v.claimsValid && v.locallyIssued && v.intentBindingValid
    && !v.timeValid && v.failures == [EnvelopeTimeInvalid]
    && Seconds(expiryAt) >= v.claims.value.exp
  }

  ghost function Consume(cfg: Config, w: World, compact: CompactJws, audience: string, actorId: string, role: Role,
                         key: string, verifyAt: int, expiryAt: int, consumeAt: int): Reply<Id> {
    if !IdentifierOk(actorId) then Reply(w, Err(ValidationError))
    else if !role.Consumer? && !role.Admin? then Reply(w, Err(Forbidden))
    else if !AudienceOk(audience) || !IdentifierOk(key) then Reply(w, Err(ValidationError))
    else
      var v := Verify(cfg, w, compact, audience, verifyAt);
      var late := ExpiredButOtherwiseValid(v, expiryAt);
      if (!v.valid && !late) || v.claims.None? then Reply(w, Err(EnvelopeInvalid))
      else
        var eid := v.claims.value.jti;
        var owner := OwnerOf(w.book, eid);
        if owner.None? then Reply(w, Err(NotFound))
        else
          var id := owner.value;
          var s := w.book[id];
          var env := s.envelopes[eid];
          if env.consumedAt.Some? then
            if env.consumedBy == Some(actorId) && env.consumptionKey == Some(key)
            then Reply(w, View(cfg, w.registry, s, eid)) else Reply(w, Err(EnvelopeReplayDetected))
          else if late then Reply(w, Err(EnvelopeExpired))
          else if consumeAt < env.issuedAt then Reply(w, Err(EnvelopeInvalid))
          else if env.expiresAt <= consumeAt then Reply(w, Err(EnvelopeExpired))
          else if !CanAppend(s, consumeAt) then Reply(w, Err(ClockRollbackDetected))
          else
            var s' := ConsumedSlice(s, eid, audience, actorId, key, consumeAt);
            Reply(w.(book := w.book[id := s']), View(cfg, w.registry, s', eid))
  }

  // ----- restart -----

  // The process stops and starts again; it may stop between its two startup transactions.
  ghost function Restart(cfg: Config, w: World, start: Start): World {
    var history := w.book != map[];
    var reg := AfterStart(cfg, w.registry, history, start);
    var first := InitializeSchema(cfg, w.registry, history);
    var up := first.Ok? && !start.stopsBetween && RegisterKey(cfg, first.value, start.signer, start.at).Ok?;
    World(w.book, reg, if up then Some(start.signer) else None)
  }

  // ----- runs -----

  datatype Op =
    | SweepOp(now: int)
    | CreateOp(p: Proposal, newId: Uuid, policyAt: int, createdAt: int)
    | ReviewOp(id: Id, actorId: string, role: Role, decision: Decision, at: int)
    | CancelOp(id: Id, actorId: string, role: Role, at: int)
    | ObserveOp(id: Id, oid: Uuid, observation: ObservationStatus, providerReference: Option<string>, actorId: string,
                at: int)
    | IssueOp(id: Id, audience: string, key: string, ttl: int, actorId: string, role: Role, at: int, eid: Uuid,
              nonce: Nonce)
    | ConsumeOp(compact: CompactJws, audience: string, actorId: string, role: Role, key: string, verifyAt: int,
                expiryAt: int, consumeAt: int)
    | RestartOp(start: Start)

  ghost function Apply(cfg: Config, w: World, op: Op): World {
    if op.RestartOp? then Restart(cfg, w, op.start)
    else if w.signer.None? then w
    else
      match op
      case SweepOp(now) => Sweep(w, now).world
      case CreateOp(p, id, policyAt, createdAt) => Create(cfg, w, p, id, policyAt, createdAt).world
      case ReviewOp(id, actorId, role, decision, at) => Review(cfg, w, id, actorId, role, decision, at).world
      case CancelOp(id, actorId, role, at) => Cancel(cfg, w, id, actorId, role, at).world
      case ObserveOp(id, oid, status, ref, actorId, at) => Observe(cfg, w, id, oid, status, ref, actorId, at).world
      case IssueOp(id, audience, key, ttl, actorId, role, at, eid, nonce) =>
        Issue(cfg, w, id, audience, key, ttl, actorId, role, at, eid, nonce).world
      case ConsumeOp(compact, audience, actorId, role, key, verifyAt, expiryAt, consumeAt) =>
        Consume(cfg, w, compact, audience, actorId, role, key, verifyAt, expiryAt, consumeAt).world
      case RestartOp(_) => w
  }

  ghost function Run(cfg: Config, w: World, ops: seq<Op>): World {
    if ops == [] then w else Apply(cfg, Run(cfg, w, ops[..|ops| - 1]), Last(ops))
  }

  const EMPTY_WORLD := World(map[], Registry(map[], None, None), None)
}
