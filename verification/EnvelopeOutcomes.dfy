// What issuing and consuming an envelope answer and write, in terms of the stored columns.
module EnvelopeOutcomes {
  import opened Ordering
  import opened Basics
  import opened Evidence
  import opened Integrity
  import opened Soundness
  import opened Operations
  import opened Invariant
  import opened EnvelopeLife
  import opened Store
  import opened Runs
  import opened Guarantees
  import opened Journey
  import opened Outcomes

  // ----- issuing -----

  // One entry for each approval on file, in order of time, then of person by code units.
  ghost predicate Lists(s: Slice, listed: seq<EnvelopeApproval>) {
    && |listed| == |s.approvals|
    && (forall i :: 0 <= i < |s.approvals| ==>
          var a := s.approvals[i];
          EnvelopeApproval(a.actorId, a.actorRole, Approve, a.intentHash, a.createdAt,
                           OfApprovalRecord(a.actorId, a.actorRole, Approve, a.intentHash, a.createdAt, a.receipt))
          in listed)
    && (forall i, j :: 0 <= i < j < |listed| ==>
          listed[i].decidedAt < listed[j].decidedAt
          || (listed[i].decidedAt == listed[j].decidedAt
              && ComesBefore(Units(listed[i].subject), Units(listed[j].subject))))
  }

  lemma {:induction false} UnitsInjective(a: string, b: string)
    requires Units(a) == Units(b)
    ensures a == b
  {
    assert |Units(a)| == |a| && |Units(b)| == |b|;
    forall i | 0 <= i < |a| ensures a[i] == b[i] { assert Units(a)[i] == a[i] as int && Units(b)[i] == b[i] as int; }
  }

  lemma {:induction false} ListsInOrder(s: Slice)
    requires AllApprove(s.approvals, |s.approvals|) && 1 <= |s.approvals| <= 2
    requires |s.approvals| == 2 ==> s.approvals[0].actorId != s.approvals[1].actorId
    ensures Lists(s, EnvelopeApprovals(s))
  {
    hide SortOn, ApproveRows, ComesBefore;
    var rows, listed := ApproveRows(s.approvals), EnvelopeApprovals(s);
    ApproveRowsAll(s.approvals);
    SortSmall(rows);
    assert listed == rows || listed == [rows[1], rows[0]];
    if |listed| == 2 { PairInOrder(rows, listed); }
  }

  // Two entries of different people are in strict order once sorted.
  lemma {:induction false} PairInOrder(rows: seq<EnvelopeApproval>, listed: seq<EnvelopeApproval>)
    requires listed == SortOn(rows, ApprovalKey) && |listed| == 2 && listed[0].subject != listed[1].subject
    ensures listed[0].decidedAt < listed[1].decidedAt
         || (listed[0].decidedAt == listed[1].decidedAt
             && ComesBefore(Units(listed[0].subject), Units(listed[1].subject)))
  {
    hide SortOn, ComesBefore;
    SortOnSorts(rows, ApprovalKey);
    if Units(listed[0].subject) == Units(listed[1].subject) { UnitsInjective(listed[0].subject, listed[1].subject); }
    SortedStrictly(listed, ApprovalKey, 0, 1);
  }

  // The claims repeat the configuration, the proposal, its approvals and its log, and grant exactly
  // the requested lifetime from the reading on.
  ghost predicate Claimed(cfg: Config, s: Slice, c: Claims, eid: Id, nonce: Nonce, ttl: int, at: int) {
    && c.issuer == cfg.issuer && c.audience == cfg.audience && c.tenantId == cfg.tenantId
    && c.oidc == cfg.oidc && c.verified == cfg.oidc && c.trustDomain == cfg.trustDomain
    && c.jti == eid && c.nonce == nonce
    && c.issuedAt == at && c.iat == at / 1000 && c.nbf == c.iat && c.exp == c.iat + ttl
    && c.subjectIntent == s.intent.id && c.snapshot.id == s.intent.id && OfIntent(c.snapshot) == s.intent.intentHash
    && c.intentDigest == s.intent.intentHash && c.policyDigest == OfPolicySnapshot(c.snapshot.policy)
    && c.state == AuthorizedNoDispatch && c.authorizationStateVersion == s.intent.stateVersion
    && c.requiredApprovals == s.intent.requiredApprovals
    && Lists(s, c.approvals) && c.approvalSetDigest == OfApprovalSet(c.approvals)
    && c.approvals != [] && c.fullyApprovedAt == Last(c.approvals).decidedAt
    && c.eventCount == |s.events| && c.chainTip == Tip(s.events)
  }

  // One signed row, unconsumed, and one event that tells of it.
  ghost predicate Issued(cfg: Config, signer: SigningKey, s: Slice, s': Slice, eid: Id, nonce: Nonce, key: string,
                         ttl: int, actorId: string, at: int) {
    && s'.envelopes.Keys == {eid}
    && var env := s'.envelopes[eid];
    && env.compact.Jws? && env.compact.document.ClaimsDocument?
    && var c := env.compact.document.claims;
    && Claimed(cfg, s, c, eid, nonce, ttl, at)
    && env == Envelope(s.intent.id, cfg.tenantId, s.intent.stateVersion, cfg.audience, key, signer.keyId,
         Jws(signer.keyId, ClaimsDocument(c), Ed25519(signer.keyPair, signer.keyId, ClaimsDocument(c))),
         OfClaims(c), OfText(nonce), at, c.exp * 1000, None, None, None)
    && Logged(s, s', EvidenceEnvelopeIssued, actorId, at)
    && Says(s', EnvelopeIdField) == Text(eid) && Says(s', AudienceField) == Text(cfg.audience)
    && Says(s', StateVersionField) == Number(s.intent.stateVersion) && Says(s', KeyIdField) == Text(signer.keyId)
    && Says(s', ClaimsHashField) == DigestText(OfClaims(c))
    && Says(s', JwsDigestField) == DigestText(OfJws(env.compact))
    && Says(s', IssuanceHashField) == DigestText(OfText(key)) && Says(s', ExpiresAtField) == TimeText(c.exp * 1000)
    && Says(s', ExecutionAuthorizedField) == Flag(false) && Says(s', MovesMoneyField) == Flag(false)
    && s'.intent == s.intent && s'.approvals == s.approvals && s'.observations == s.observations
  }

  lemma {:induction false} ClaimsColumns(cfg: Config, s: Slice, eid: Id, nonce: Nonce, ttl: int, at: int)
    requires IntentHashValid(cfg, s.intent) && EnvelopeApprovals(s) != [] && Lists(s, EnvelopeApprovals(s))
    requires 1 <= ttl
    ensures Claimed(cfg, s, IssuedClaims(cfg, s, eid, nonce, ttl, at), eid, nonce, ttl, at)
  {
    hide Lists, EnvelopeApprovals;
    LifetimeExact(at, ttl, at + ttl * 1000);
  }

  lemma {:induction false} IssuedColumns(cfg: Config, s: Slice, eid: Id, nonce: Nonce, ttl: int, at: int, key: string,
                                         signer: SigningKey, actorId: string)
    requires s.envelopes == map[] && s.intent.policyReasons.Some? && EnvelopeApprovals(s) != []
    requires Claimed(cfg, s, IssuedClaims(cfg, s, eid, nonce, ttl, at), eid, nonce, ttl, at)
    ensures var env := NewEnvelope(cfg, s, IssuedClaims(cfg, s, eid, nonce, ttl, at), key, signer);
      Issued(cfg, signer, s, IssuedSlice(s, eid, env, actorId), eid, nonce, key, ttl, actorId, at)
  {
    hide Append, Claimed, IssuedClaims, EnvelopeApprovals, IssuePayload;
    var c := IssuedClaims(cfg, s, eid, nonce, ttl, at);
    var env := NewEnvelope(cfg, s, c, key, signer);
    SignedClaims(cfg, s, eid, nonce, ttl, at, c);
    hide NewEnvelope;
    SignedColumns(cfg, s, c, key, signer);
    hide Tip;
    Appended(s.(envelopes := s.envelopes[eid := env]), EvidenceEnvelopeIssued, actorId, IssuePayload(eid, env), at);
    IssuePayloadSays(eid, env);
  }

  lemma {:induction false} SignedColumns(cfg: Config, s: Slice, c: Claims, key: string, signer: SigningKey)
    ensures NewEnvelope(cfg, s, c, key, signer)
      == Envelope(s.intent.id, cfg.tenantId, s.intent.stateVersion, c.audience, key, signer.keyId,
                  Jws(signer.keyId, ClaimsDocument(c), Ed25519(signer.keyPair, signer.keyId, ClaimsDocument(c))),
                  OfClaims(c), OfText(c.nonce), c.issuedAt, c.exp * 1000, None, None, None)
  {
  }

  lemma {:induction false} SignedClaims(cfg: Config, s: Slice, eid: Id, nonce: Nonce, ttl: int, at: int, c: Claims)
    requires Claimed(cfg, s, c, eid, nonce, ttl, at)
    ensures c.audience == cfg.audience && c.issuedAt == at && c.nonce == nonce
  {
    hide Lists;
  }

  // A log with nothing after a moment holds no approval after it.
  lemma {:induction false} ApprovedBy(cfg: Config, reg: Registry, s: Slice, at: int)
    requires Green(cfg, reg, s) && NothingAfter(s, at)
    ensures forall i :: 0 <= i < |s.approvals| ==> s.approvals[i].createdAt <= at
  {
    hide Green, HumanDecision, HasRow;
    GreenMeansDecided(cfg, reg, s);
    forall i | 0 <= i < |s.approvals| ensures s.approvals[i].createdAt <= at {
      assert HasWitness(s.events, s.approvals[i]);
      var k :| SoleWitness(s.events, s.approvals[i], k);
    }
  }

  // Whatever the store holds: an empty, long or foreign audience, a lifetime, key or name out of
  // bounds, an agent's or a consumer's role, or an unknown proposal.
  lemma {:induction false} IssueRefusesOutright(cfg: Config, w: World, id: Id, audience: string, key: string, ttl: int,
                                                actorId: string, role: Role, at: int, eid: Uuid, nonce: Nonce)
    ensures var r := Issue(cfg, w, id, audience, key, ttl, actorId, role, at, eid, nonce);
      var own := 1 <= |audience| <= 512 && audience == cfg.audience;
      var named := 1 <= |actorId| <= 128 && 1 <= |key| <= 128 && 1 <= ttl <= cfg.envelopeTtlSeconds;
      && (audience == "" || |audience| > 512 ==> r == Reply(w, Err(ValidationError)))
      && (1 <= |audience| <= 512 && !own ==> r == Reply(w, Err(EnvelopeAudienceNotAllowed)))
      && (own && !named ==> r == Reply(w, Err(ValidationError)))
      && (own && named && (role == Agent || role == Consumer) ==> r == Reply(w, Err(Forbidden)))
      && (own && named && (role == Approver || role == Admin) && id !in w.book ==> r == Reply(w, Err(NotFound)))
  {
    hide Green, FirstIssue, Reissue, FindForState;
  }

  // The checks of a first issue that stop it.
  lemma {:induction false} FirstIssueStops(cfg: Config, w: World, id: Id, key: string, ttl: int, actorId: string,
                                           at: int, eid: Uuid, nonce: Nonce)
    requires id in w.book && Green(cfg, w.registry, w.book[id])
    ensures var s, r := w.book[id], FirstIssue(cfg, w, id, key, ttl, actorId, at, eid, nonce);
      && (s.intent.expiresAt < at + ttl * 1000 ==> r == Reply(w, Err(EnvelopeExpiryExceedsIntent)))
      && (!NothingAfter(s, at) || !EnvelopeKeysFree(w.book, eid, nonce) ==> r.world == w && r.result.Err?)
  {
    hide Green, StrictClaims, View, IssuedClaims, NewEnvelope, IssuedSlice, EnvelopeApprovals, EnvelopeKeysFree,
         NothingAfter, CanAppend;
    AppendsAfter(cfg, w.registry, w.book[id], at);
  }

  // Otherwise, on a proposal that stands as the invariant says, it writes.
  lemma {:induction false} FirstIssueWrites(cfg: Config, w: World, id: Id, key: string, ttl: int, actorId: string,
                                            at: int, eid: Uuid, nonce: Nonce)
    requires WorldInv(cfg, w) && w.signer.Some? && id in w.book && w.book[id].envelopes == map[]
    requires w.book[id].intent.status == AuthorizedNoDispatch && 1 <= ttl <= cfg.envelopeTtlSeconds
    requires at + ttl * 1000 <= w.book[id].intent.expiresAt && NothingAfter(w.book[id], at)
    requires EnvelopeKeysFree(w.book, eid, nonce)
    ensures var s, w' := w.book[id], FirstIssue(cfg, w, id, key, ttl, actorId, at, eid, nonce).world;
      && OnlyChanged(w, w', id)
      && Issued(cfg, w.signer.value, s, w'.book[id], eid, nonce, key, ttl, actorId, at)
  {
    hide Green, SliceInv, WorldInv, StrictClaims, View, Issued, IssuedClaims, NewEnvelope, IssuedSlice, Claimed,
         EnvelopeApprovals, EnvelopeKeysFree, NothingAfter, CanAppend, Lists, ListsApproval, IntentHashValid;
    var s := w.book[id];
    SliceIn(cfg, w, id);
    GreenInWorld(cfg, w, id);
    SignerKnown(cfg, w);
    AppendsAfter(cfg, w.registry, s, at);
    ListComplete(cfg, w.registry, id, s);
    AuthorizedList(cfg, w.registry, id, s);
    ApprovedBy(cfg, w.registry, s, at);
    ListedBefore(s, EnvelopeApprovals(s), at);
    SigningIsStrict(cfg, w.registry, id, s, eid, nonce, ttl, at);
    ClaimsColumns(cfg, s, eid, nonce, ttl, at);
    IssuedColumns(cfg, s, eid, nonce, ttl, at, key, w.signer.value, actorId);
  }

  lemma {:induction false} AuthorizedList(cfg: Config, reg: Registry, id: Id, s: Slice)
    requires SliceInv(cfg, reg, id, s) && s.intent.status == AuthorizedNoDispatch
    ensures Lists(s, EnvelopeApprovals(s)) && IntentHashValid(cfg, s.intent)
    ensures forall i :: 0 <= i < |EnvelopeApprovals(s)| ==> ListsApproval(s, EnvelopeApprovals(s)[i])
  {
    hide Green, Lifecycle, EnvelopeApprovals, Lists;
    InvariantParts(cfg, reg, id, s);
    SliceShape(cfg, reg, id, s);
    AuthorizedVersion(cfg, reg, id, s);
    RowNamed(cfg, s.intent);
    ListsInOrder(s);
    EnvelopeApprovalsFacts(s);
  }

  lemma {:induction false} ListedBefore(s: Slice, listed: seq<EnvelopeApproval>, at: int)
    requires forall i :: 0 <= i < |s.approvals| ==> s.approvals[i].createdAt <= at
    requires forall i :: 0 <= i < |listed| ==> ListsApproval(s, listed[i])
    ensures listed != [] ==> Last(listed).decidedAt <= at
  {
    if listed != [] { assert ListsApproval(s, Last(listed)); }
  }

  // A first request by an approver or admin is accepted exactly when the proposal is authorized, the
  // lifetime ends by its deadline, nothing on file is later, and the drawn id and nonce are unused;
  // then one signed envelope is on file.
  lemma {:induction false} IssueAnswers(cfg: Config, w: World, id: Id, key: string, ttl: int, actorId: string,
                                        role: Role, at: int, eid: Uuid, nonce: Nonce)
    requires Reachable(cfg, w) && w.signer.Some? && id in w.book && w.book[id].envelopes == map[]
    requires 1 <= |actorId| <= 128 && 1 <= |key| <= 128 && 1 <= ttl <= cfg.envelopeTtlSeconds
    requires role == Approver || role == Admin
    ensures var s, r := w.book[id], Issue(cfg, w, id, cfg.audience, key, ttl, actorId, role, at, eid, nonce);
      var unused := forall other, e :: other in w.book && e in w.book[other].envelopes ==>
        e != eid && w.book[other].envelopes[e].nonceHash != OfText(nonce);
      && (r.result.Ok? <==>
            && s.intent.status == AuthorizedNoDispatch && at + ttl * 1000 <= s.intent.expiresAt
            && NothingAfter(s, at) && unused)
      && (r.result.Ok? ==>
            && r.result.value == eid && OnlyChanged(w, r.world, id)
            && Issued(cfg, w.signer.value, s, r.world.book[id], eid, nonce, key, ttl, actorId, at))
      && (r.result.Err? ==> r.world == w)
      && (s.intent.status != AuthorizedNoDispatch ==> r.result == Err(InvalidState))
      && (s.intent.status == AuthorizedNoDispatch && s.intent.expiresAt < at + ttl * 1000 ==>
            r.result == Err(EnvelopeExpiryExceedsIntent))
  {
    hide Reachable, WorldInv, Green, FirstIssue, Issued, NothingAfter, FindForState;
    ReachableInv(cfg, w);
    GreenInWorld(cfg, w, id);
    SignerKnown(cfg, w);
    SliceIn(cfg, w, id);
    FoundForState(cfg, w.registry, id, w.book[id]);
    IssueOpKeeps(cfg, w, id, cfg.audience, key, ttl, actorId, role, at, eid, nonce);
    var s := w.book[id];
    if s.intent.status == AuthorizedNoDispatch {
      FirstIssueStops(cfg, w, id, key, ttl, actorId, at, eid, nonce);
      if at + ttl * 1000 <= s.intent.expiresAt && NothingAfter(s, at) && EnvelopeKeysFree(w.book, eid, nonce) {
        FirstIssueWrites(cfg, w, id, key, ttl, actorId, at, eid, nonce);
        var w' := FirstIssue(cfg, w, id, key, ttl, actorId, at, eid, nonce).world;
        IssuedChanges(cfg, w.signer.value, s, w'.book[id], eid, nonce, key, ttl, actorId, at);
        IssuedViews(cfg, w, id, key, ttl, actorId, at, eid, nonce);
      }
    }
  }

  lemma {:induction false} IssuedChanges(cfg: Config, signer: SigningKey, s: Slice, s': Slice, eid: Id, nonce: Nonce,
                                         key: string, ttl: int, actorId: string, at: int)
    requires s.envelopes == map[] && Issued(cfg, signer, s, s', eid, nonce, key, ttl, actorId, at)
    ensures s' != s
  {
    hide Claimed, Logged;
  }

  // What was stored is what the caller gets.
  lemma {:induction false} IssuedViews(cfg: Config, w: World, id: Id, key: string, ttl: int, actorId: string, at: int,
                                       eid: Uuid, nonce: Nonce)
    requires w.signer.Some? && id in w.book && w.book[id].envelopes == map[]
    requires WorldInv(cfg, FirstIssue(cfg, w, id, key, ttl, actorId, at, eid, nonce).world)
    ensures var r := FirstIssue(cfg, w, id, key, ttl, actorId, at, eid, nonce);
      r.world != w ==> r.result == Ok(eid)
  {
    hide WorldInv, StrictClaims, View, IssuedClaims, NewEnvelope, EnvelopeApprovals, EnvelopeKeysFree, CanAppend;
    var r := FirstIssue(cfg, w, id, key, ttl, actorId, at, eid, nonce);
    if r.world != w { ViewSucceeds(cfg, r.world, id, eid); }
  }

  // A later request for the same proposal changes nothing: the key and lifetime of the envelope on
  // file get its id back, and every other pair conflicts.
  lemma {:induction false} IssueAgainAnswers(cfg: Config, w: World, id: Id, key: string, ttl: int, actorId: string,
                                             role: Role, at: int, eid: Uuid, nonce: Nonce, e: Id)
    requires Reachable(cfg, w) && w.signer.Some? && id in w.book && e in w.book[id].envelopes
    requires 1 <= |actorId| <= 128 && 1 <= |key| <= 128 && 1 <= ttl <= cfg.envelopeTtlSeconds
    requires role == Approver || role == Admin
    ensures var env := w.book[id].envelopes[e];
      && env.compact.Jws? && env.compact.document.ClaimsDocument?
      && var c := env.compact.document.claims;
      Issue(cfg, w, id, cfg.audience, key, ttl, actorId, role, at, eid, nonce)
      == Reply(w, if env.issuanceKey == key && c.exp - c.iat == ttl then Ok(e) else Err(IdempotencyConflict))
  {
    hide Reachable, WorldInv, SliceInv, Green, FirstIssue, FindForState, View, StrictClaims, EnvelopeValid,
         ClaimsBind, VerifiedClaims, ExactArtifact;
    ReachableInv(cfg, w);
    GreenInWorld(cfg, w, id);
    SignerKnown(cfg, w);
    SliceIn(cfg, w, id);
    FoundForState(cfg, w.registry, id, w.book[id]);
    assert e in {FindForState(cfg, w.book[id], cfg.audience).value};
    EnvelopeFacts(cfg, w.registry, id, w.book[id], e);
    ViewSucceeds(cfg, w, id, e);
  }

  // On tables of any content: a request only conflicts with an envelope of this tenant for the same
  // proposal, version and audience, asked for under another key or for another lifetime.
  lemma {:induction false} ConflictMeansOnFile(cfg: Config, w: World, id: Id, audience: string, key: string, ttl: int,
                                               actorId: string, role: Role, at: int, eid: Uuid, nonce: Nonce)
    requires Issue(cfg, w, id, audience, key, ttl, actorId, role, at, eid, nonce).result == Err(IdempotencyConflict)
    ensures id in w.book && exists e ::
      && e in w.book[id].envelopes
      && var env := w.book[id].envelopes[e];
      && env.tenantId == cfg.tenantId && env.stateVersion == w.book[id].intent.stateVersion && env.audience == audience
      && (env.issuanceKey != key
          || (env.compact.Jws? && env.compact.document.ClaimsDocument?
              && env.compact.document.claims.exp - env.compact.document.claims.iat != ttl))
  {
    hide Green, StrictClaims, EnvelopeKeysFree, CanAppend, EnvelopeApprovals, IssuedClaims, NewEnvelope;
    var s := w.book[id];
    var found := FindForState(cfg, s, audience);
    assert found.Some?;
  }

  // ----- verifying -----

  // The place of each failure in a verdict's list.
  function Place(f: VerifyFailure): nat {
    match f
    case SignatureOrSchemaInvalid => 0
    case EnvelopeTimeInvalid => 1
    case IssuerMismatch => 2
    case AudienceMismatch => 3
    case TenantMismatch => 4
    case LocalIssuanceNotProven => 5
    case IntentBindingInvalid => 6
  }

  ghost predicate InPlace(failures: seq<VerifyFailure>) {
    forall i, j :: 0 <= i < j < |failures| ==> Place(failures[i]) < Place(failures[j])
  }

  // A list in order with one more failure that comes later, if it is one.
  lemma {:induction false} FailureAdded(failures: seq<VerifyFailure>, bad: bool, f: VerifyFailure)
    requires InPlace(failures) && forall g :: g in failures ==> Place(g) < Place(f)
    ensures var longer := failures + When(bad, f);
      && InPlace(longer)
      && (forall g :: g in longer <==> g in failures || (bad && g == f))
      && (forall g :: g in longer ==> Place(g) <= Place(f))
      && (longer == [] <==> failures == [] && !bad)
  {
  }

  lemma {:induction false} FirstFailures(time: bool, issuer: bool, audience: bool)
    ensures var failures := When(time, EnvelopeTimeInvalid) + When(issuer, IssuerMismatch)
                            + When(audience, AudienceMismatch);
      && InPlace(failures) && (forall g :: g in failures ==> Place(g) <= 3)
      && SignatureOrSchemaInvalid !in failures
      && (EnvelopeTimeInvalid in failures <==> time) && (IssuerMismatch in failures <==> issuer)
      && (AudienceMismatch in failures <==> audience)
      && (failures == [] <==> !time && !issuer && !audience)
  {
    hide When, InPlace;
    NoneInPlace();
    FailureAdded([], time, EnvelopeTimeInvalid);
    var one := [] + When(time, EnvelopeTimeInvalid);
    assert one == When(time, EnvelopeTimeInvalid);
    FailureAdded(one, issuer, IssuerMismatch);
    FailureAdded(one + When(issuer, IssuerMismatch), audience, AudienceMismatch);
  }

  // Six possible failures in their order.
  lemma {:induction false} FailuresListed(time: bool, issuer: bool, audience: bool, tenant: bool, local: bool,
                                          binding: bool)
    ensures var failures := When(time, EnvelopeTimeInvalid) + When(issuer, IssuerMismatch)
                            + When(audience, AudienceMismatch) + When(tenant, TenantMismatch)
                            + When(local, LocalIssuanceNotProven) + When(binding, IntentBindingInvalid);
      && InPlace(failures) && SignatureOrSchemaInvalid !in failures
      && (EnvelopeTimeInvalid in failures <==> time) && (IssuerMismatch in failures <==> issuer)
      && (AudienceMismatch in failures <==> audience) && (TenantMismatch in failures <==> tenant)
      && (LocalIssuanceNotProven in failures <==> local) && (IntentBindingInvalid in failures <==> binding)
      && (failures == [] <==> !time && !issuer && !audience && !tenant && !local && !binding)
  {
    hide When, InPlace;
    FirstFailures(time, issuer, audience);
    var three := When(time, EnvelopeTimeInvalid) + When(issuer, IssuerMismatch) + When(audience, AudienceMismatch);
    FailureAdded(three, tenant, TenantMismatch);
    var four := three + When(tenant, TenantMismatch);
    FailureAdded(four, local, LocalIssuanceNotProven);
    FailureAdded(four + When(local, LocalIssuanceNotProven), binding, IntentBindingInvalid);
  }

  lemma {:induction false} NoneInPlace()
    ensures InPlace([])
  {
  }

  // Signed by the key that the valid registry holds under the string's own key id.
  ghost predicate TrustedSigned(cfg: Config, reg: Registry, compact: CompactJws) {
    && RegistryValid(cfg, reg) && compact.Jws? && compact.kid in reg.rows
    && var jwk := reg.rows[compact.kid].jwk;
    && jwk.Jwk? && jwk.kid == compact.kid
    && compact.signature == Ed25519(jwk.keyPair, compact.kid, compact.document)
  }

  // A verdict on any string and any store: unsigned or malformed claims fail at once and alone;
  // otherwise each fault is listed, once and in order, exactly when it is one, and the verdict is
  // valid exactly when none is.
  lemma {:induction false} VerdictTells(cfg: Config, w: World, compact: CompactJws, audience: string, now: int)
    ensures var v := Verify(cfg, w, compact, audience, now);
      && (v.signatureValid <==> TrustedSigned(cfg, w.registry, compact))
      && (v.claimsValid <==>
            v.signatureValid && compact.document.ClaimsDocument? && StrictClaims(compact.document.claims))
      && (!v.claimsValid ==>
            v == Verification(false, v.signatureValid, false, false, false, false, NotStored,
                              [SignatureOrSchemaInvalid], None))
      && (v.claimsValid ==>
            var c := compact.document.claims;
            && v.claims == Some(c) && SignatureOrSchemaInvalid !in v.failures
            && (v.timeValid <==>
                  c.iat <= c.nbf <= now / 1000 < c.exp && 1 <= c.exp - c.iat <= cfg.envelopeTtlSeconds)
            && (EnvelopeTimeInvalid in v.failures <==> !v.timeValid)
            && (IssuerMismatch in v.failures <==> c.issuer != cfg.issuer)
            && (AudienceMismatch in v.failures <==> audience != c.audience || audience != cfg.audience)
            && (TenantMismatch in v.failures <==> c.tenantId != cfg.tenantId)
            && (LocalIssuanceNotProven in v.failures <==> !v.locallyIssued)
            && (IntentBindingInvalid in v.failures <==> !v.intentBindingValid)
            && (v.valid <==> v.failures == []))
      && InPlace(v.failures)
  {
    hide StrictClaims, LocallyIssued, BindingValid, StoredConsumption, RegistryValid, TimeValidNow, When, InPlace;
    SingleInPlace(SignatureOrSchemaInvalid);
    var v := Verify(cfg, w, compact, audience, now);
    if v.claimsValid {
      var c := compact.document.claims;
      TimeMeans(cfg, c, Seconds(now));
      FailuresListed(!v.timeValid, c.issuer != cfg.issuer, !(audience == c.audience && audience == cfg.audience),
                     c.tenantId != cfg.tenantId, !v.locallyIssued, !v.intentBindingValid);
    }
  }

  lemma {:induction false} TimeMeans(cfg: Config, c: Claims, seconds: int)
    ensures TimeValidNow(cfg, c, seconds) <==>
      c.iat <= c.nbf <= seconds < c.exp && 1 <= c.exp - c.iat <= cfg.envelopeTtlSeconds
  {
  }

  lemma {:induction false} SingleInPlace(f: VerifyFailure)
    ensures InPlace([f])
  {
  }

  // On tables of any content with one row for each id: claims count as issued here exactly if the row
  // is this tenant's and holds these bytes and their two hashes; another tenant's row is not reported.
  lemma {:induction false} VerdictOnTables(cfg: Config, w: World, compact: CompactJws, audience: string, now: int,
                                           id: Id)
    requires Verify(cfg, w, compact, audience, now).claims.Some?
    requires var eid := Verify(cfg, w, compact, audience, now).claims.value.jti;
      && id in w.book && eid in w.book[id].envelopes
      && forall other :: other in w.book && eid in w.book[other].envelopes ==> other == id
    ensures var v := Verify(cfg, w, compact, audience, now);
      var c := v.claims.value;
      var env := w.book[id].envelopes[c.jti];
      var own := env.tenantId == cfg.tenantId;
      && (v.locallyIssued <==>
            own && env.compact == compact && env.claimsHash == OfClaims(c) && env.nonceHash == OfText(c.nonce))
      && v.consumption == (if !own then NotStored else if env.consumedAt.None? then Unconsumed
                           else ConsumedBy(env.consumedBy, env.consumedAt.value))
  {
    hide BindingValid, StrictClaims, TrustedJwk, SignatureVerifies, TimeValidNow, When;
    var c := Verify(cfg, w, compact, audience, now).claims.value;
    assert OwnerOf(w.book, c.jti) == Some(id);
  }

  // The verdict on claims whose id is on file: issued here exactly if these bytes are the stored ones,
  // with the consumption the row records; claims whose id is on no file were not issued here.
  lemma {:induction false} VerdictOnFile(cfg: Config, w: World, compact: CompactJws, audience: string, now: int,
                                         id: Id)
    requires Reachable(cfg, w) && Verify(cfg, w, compact, audience, now).claims.Some?
    ensures var v := Verify(cfg, w, compact, audience, now);
      var eid := v.claims.value.jti;
      && (id in w.book && eid in w.book[id].envelopes ==>
            var env := w.book[id].envelopes[eid];
            && (v.locallyIssued <==> env.compact == compact)
            && v.consumption == if env.consumedAt.None? then Unconsumed
                                else ConsumedBy(env.consumedBy, env.consumedAt.value))
      && ((forall other :: other in w.book ==> eid !in w.book[other].envelopes) ==>
            !v.locallyIssued && v.consumption == NotStored)
  {
    hide Reachable, SliceInv, BindingValid, StrictClaims, TrustedJwk, SignatureVerifies, TimeValidNow, When;
    ReachableInv(cfg, w);
    var eid := Verify(cfg, w, compact, audience, now).claims.value.jti;
    if id in w.book && eid in w.book[id].envelopes {
      StoredIsOwned(cfg, w, id, eid);
      SliceIn(cfg, w, id);
      EnvelopeFacts(cfg, w.registry, id, w.book[id], eid);
    }
  }

  // What the strict check lets through: claims of one authorized proposal, of a lifetime inside its
  // deadline, with one or two approvals of it by different people in order.
  lemma {:induction false} StrictTells(c: Claims)
    requires StrictClaims(c)
    ensures c.iat == c.nbf == c.issuedAt / 1000 && c.issuedAt < c.exp * 1000 <= c.snapshot.expiresAt
    ensures c.snapshot.createdAt <= c.issuedAt && c.snapshot.initialStatus == AwaitingApproval
    ensures c.snapshot.policy.allowed && c.snapshot.policy.reasons.Listed?
    ensures c.state == AuthorizedNoDispatch && c.authorizationStateVersion == 1 + |c.approvals|
    ensures |c.approvals| == c.requiredApprovals == c.snapshot.policy.requiredApprovals
    ensures c.requiredApprovals == 1 || c.requiredApprovals == 2
    ensures c.verified == c.oidc && c.snapshot.tenantId == c.tenantId && c.subjectIntent == c.snapshot.id
    ensures if c.oidc then |c.trustDomain| == 71
            else c.trustDomain == "urn:parimit:identity-trust:local-demo-headers-v1"
    ensures forall a :: a in c.approvals ==>
      && (a.actorRole == Approver || a.actorRole == Admin) && a.decision == Approve
      && a.intentHash == c.intentDigest && c.snapshot.createdAt <= a.decidedAt < c.snapshot.expiresAt
      && a.decidedAt <= c.fullyApprovedAt <= c.issuedAt
      && a.recordDigest != Genesis && !a.recordDigest.NotADigest?
    ensures |c.approvals| == 2 ==> c.approvals[0].subject != c.approvals[1].subject
    ensures |c.approvals| == 2 ==>
      || c.approvals[0].decidedAt < c.approvals[1].decidedAt
      || (c.approvals[0].decidedAt == c.approvals[1].decidedAt
          && ComesBefore(Units(c.approvals[0].subject), Units(c.approvals[1].subject)))
    ensures c.fullyApprovedAt == c.approvals[|c.approvals| - 1].decidedAt
    ensures c.eventCount >= 1
    ensures forall d | d in [c.snapshot.policy.configDigest, c.intentDigest, c.policyDigest, c.approvalSetDigest,
                             c.chainTip] :: d != Genesis && !d.NotADigest?
  {
    hide SortOn, ComesBefore;
    if |c.approvals| == 2 { PairInOrder(c.approvals, c.approvals); }
    forall a | a in c.approvals ensures a.decidedAt <= c.fullyApprovedAt {
      var i :| 0 <= i < |c.approvals| && c.approvals[i] == a;
    }
  }

  // ----- consuming -----

  // Whatever the store holds: a malformed name, an agent's or an approver's role, or a malformed
  // audience or key.
  lemma {:induction false} ConsumeRefusesOutright(cfg: Config, w: World, compact: CompactJws, audience: string,
                                                  actorId: string, role: Role, key: string, verifyAt: int,
                                                  expiryAt: int, consumeAt: int)
    ensures var r := Consume(cfg, w, compact, audience, actorId, role, key, verifyAt, expiryAt, consumeAt);
      && (actorId == "" || |actorId| > 128 ==> r == Reply(w, Err(ValidationError)))
      && (1 <= |actorId| <= 128 && (role == Agent || role == Approver) ==> r == Reply(w, Err(Forbidden)))
      && (1 <= |actorId| <= 128 && (role == Consumer || role == Admin)
            && (audience == "" || |audience| > 512 || key == "" || |key| > 128)
          ==> r == Reply(w, Err(ValidationError)))
  {
    hide Verify, View, OwnerOf, ConsumedSlice, CanAppend;
  }

  // Whatever the store holds: an audience that is not the deployment's, or bytes that are stored
  // under no proposal, are invalid.
  lemma {:induction false} ConsumeRefusesForeign(cfg: Config, w: World, compact: CompactJws, audience: string,
                                                 actorId: string, role: Role, key: string, verifyAt: int,
                                                 expiryAt: int, consumeAt: int)
    requires 1 <= |actorId| <= 128 && (role == Consumer || role == Admin)
    requires 1 <= |audience| <= 512 && 1 <= |key| <= 128
    requires audience == cfg.audience ==>
      forall id, e :: id in w.book && e in w.book[id].envelopes ==> w.book[id].envelopes[e].compact != compact
    ensures Consume(cfg, w, compact, audience, actorId, role, key, verifyAt, expiryAt, consumeAt)
      == Reply(w, Err(EnvelopeInvalid))
  {
    hide View, ConsumedSlice, CanAppend, BindingValid, StrictClaims, TrustedJwk;
  }

  // The consumer, the key and the moment are on file, and one event.
  ghost predicate ConsumedNow(s: Slice, s': Slice, eid: Id, audience: string, actorId: string, key: string, at: int) {
    && eid in s.envelopes
    && s'.envelopes == s.envelopes[eid := s.envelopes[eid].(consumedAt := Some(at), consumedBy := Some(actorId),
                                                            consumptionKey := Some(key))]
    && Logged(s, s', EvidenceEnvelopeConsumed, actorId, at)
    && Says(s', EnvelopeIdField) == Text(eid) && Says(s', AudienceField) == Text(audience)
    && Says(s', ConsumerIdField) == Text(actorId) && Says(s', ConsumptionHashField) == DigestText(OfText(key))
    && Says(s', StateVersionField) == Number(s.envelopes[eid].stateVersion)
    && Says(s', ExecutionAuthorizedField) == Flag(false) && Says(s', MovesMoneyField) == Flag(false)
    && s'.intent == s.intent && s'.approvals == s.approvals && s'.observations == s.observations
  }

  lemma {:induction false} ConsumedColumns(s: Slice, eid: Id, audience: string, actorId: string, key: string, at: int)
    requires eid in s.envelopes
    ensures ConsumedNow(s, ConsumedSlice(s, eid, audience, actorId, key, at), eid, audience, actorId, key, at)
  {
    var env := s.envelopes[eid];
    var payload := ConsumePayload(eid, audience, actorId, key, env.stateVersion);
    Appended(s.(envelopes := s.envelopes[eid := ConsumedEnvelope(env, actorId, key, at)]), EvidenceEnvelopeConsumed,
             actorId, payload, at);
    hide Append;
  }

  // An unconsumed envelope presented by a consumer or admin is accepted exactly when the verification
  // and the consumption both fall in its lifetime and nothing on file is later; then that is on file.
  // Past its expiry it has expired, and before its time it is invalid.
  lemma {:induction false} ConsumeAnswers(cfg: Config, w: World, id: Id, eid: Id, actorId: string, role: Role,
                                          key: string, verifyAt: int, expiryAt: int, consumeAt: int)
    requires Reachable(cfg, w) && w.signer.Some? && id in w.book && eid in w.book[id].envelopes
    requires w.book[id].envelopes[eid].consumedAt.None?
    requires 1 <= |actorId| <= 128 && 1 <= |key| <= 128 && (role == Consumer || role == Admin)
    ensures var s := w.book[id];
      var env := s.envelopes[eid];
      && env.compact.Jws? && env.compact.document.ClaimsDocument?
      && var c := env.compact.document.claims;
      var r := Consume(cfg, w, env.compact, cfg.audience, actorId, role, key, verifyAt, expiryAt, consumeAt);
      && (r.result.Ok? <==>
            && c.iat <= verifyAt / 1000 < c.exp && env.issuedAt <= consumeAt < env.expiresAt
            && NothingAfter(s, consumeAt))
      && (r.result.Ok? ==>
            && r.result.value == eid && OnlyChanged(w, r.world, id)
            && ConsumedNow(s, r.world.book[id], eid, cfg.audience, actorId, key, consumeAt))
      && (r.result.Err? ==> r.world == w)
      && (c.exp <= verifyAt / 1000 && c.exp <= expiryAt / 1000 ==> r.result == Err(EnvelopeExpired))
      && (verifyAt / 1000 < c.iat && expiryAt / 1000 < c.exp ==> r.result == Err(EnvelopeInvalid))
      && (c.iat <= verifyAt / 1000 < c.exp ==>
            && (env.expiresAt <= consumeAt ==> r.result == Err(EnvelopeExpired))
            && (consumeAt < env.issuedAt ==> r.result == Err(EnvelopeInvalid))
            && (env.issuedAt <= consumeAt < env.expiresAt && !NothingAfter(s, consumeAt) ==>
                  r.result == Err(ClockRollbackDetected)))
  {
    hide Reachable, WorldInv, Green, SliceInv, Verify, View, OwnerOf, ConsumedSlice, ConsumedNow, CanAppend,
         NothingAfter, StrictClaims, EnvelopeValid, ClaimsBind, VerifiedClaims, ExactArtifact;
    ReachableInv(cfg, w);
    var compact := w.book[id].envelopes[eid].compact;
    InvIsOk(cfg, w);
    StoredVerifies(cfg, w, id, eid, verifyAt);
    StoredIsOwned(cfg, w, id, eid);
    GreenInWorld(cfg, w, id);
    AppendsAfter(cfg, w.registry, w.book[id], consumeAt);
    EnvelopeTimes(cfg, w, id, eid);
    ConsumedColumns(w.book[id], eid, cfg.audience, actorId, key, consumeAt);
    ConsumeOpKeeps(cfg, w, compact, cfg.audience, actorId, role, key, verifyAt, expiryAt, consumeAt);
    var s' := ConsumedSlice(w.book[id], eid, cfg.audience, actorId, key, consumeAt);
    ConsumedHere(w.book[id], s', eid, cfg.audience, actorId, key, consumeAt);
    var w' := Consume(cfg, w, compact, cfg.audience, actorId, role, key, verifyAt, expiryAt, consumeAt).world;
    if w' == w.(book := w.book[id := s']) { ViewSucceeds(cfg, w', id, eid); }
  }

  lemma {:induction false} EnvelopeTimes(cfg: Config, w: World, id: Id, eid: Id)
    requires WorldInv(cfg, w) && id in w.book && eid in w.book[id].envelopes
    ensures var env := w.book[id].envelopes[eid];
      && env.compact.Jws? && env.compact.document.ClaimsDocument? && env.compact.document.claims.jti == eid
      && env.expiresAt == env.compact.document.claims.exp * 1000
      && env.compact.document.claims.iat == Seconds(env.issuedAt)
  {
    hide SliceInv, ClaimsBind, ExactArtifact, VerifiedClaims;
    SliceIn(cfg, w, id);
    EnvelopeFacts(cfg, w.registry, id, w.book[id], eid);
  }

  lemma {:induction false} ConsumedHere(s: Slice, s': Slice, eid: Id, audience: string, actorId: string, key: string,
                                        at: int)
    requires ConsumedNow(s, s', eid, audience, actorId, key, at)
    ensures eid in s'.envelopes && s'.envelopes[eid].consumedAt == Some(at)
  {
  }
}
