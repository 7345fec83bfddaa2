// What callers may rely on, in every reachable world and over every later run.
module Guarantees {
  import opened Ordering
  import opened Basics
  import opened Evidence
  import opened Integrity
  import opened Counting
  import opened Operations
  import opened Invariant
  import opened Preservation
  import opened EnvelopeLife
  import opened Store
  import opened Runs
  import opened Evolution

  // ----- lifecycle -----

  lemma {:induction false} ApprovesCount(approvals: seq<Approval>, n: nat)
    requires n <= |approvals| && AllApprove(approvals, n)
    ensures Approves(approvals[..n]) == n
  {
    if n > 0 {
      assert approvals[..n][..n - 1] == approvals[..n - 1];
      ApprovesCount(approvals, n - 1);
    }
  }

  // The parts of the invariant the guarantees below start from.
  lemma {:induction false} SliceParts(cfg: Config, reg: Registry, id: Id, s: Slice)
    requires SliceInv(cfg, reg, id, s)
    ensures s.intent.id == id && Phase(s) && ObservedInOrder(s) && RowConsistent(cfg, s.intent) && |s.envelopes| <= 1
    ensures s.intent.policyAllowed <==> s.intent.status != PolicyDenied
    ensures ObservationsConsistent(s.intent, s.observations, s.events)
    ensures |Select(s.events, IsReview)| == |s.approvals|
    ensures s.intent.stateVersion == 1 + |s.approvals| + |Select(s.events, IsTerminal)|
    ensures |Select(s.events, IsTerminal)|
      == (if s.intent.status == Cancelled || s.intent.status == Expired then 1 else 0)
  {
  }

  lemma {:induction false} PhaseThreshold(s: Slice)
    requires Phase(s) && (s.intent.requiredApprovals == 1 || s.intent.requiredApprovals == 2)
    ensures s.intent.status == AuthorizedNoDispatch <==> Approves(s.approvals) == s.intent.requiredApprovals
  {
    var n := |s.approvals|;
    assert s.approvals[..n] == s.approvals;
    if s.intent.status == Rejected { ApprovesCount(s.approvals, n - 1); } else { ApprovesCount(s.approvals, n); }
  }

  // AUTHORIZED_NO_DISPATCH is entered exactly when the APPROVE rows reach the requirement.
  lemma {:induction false} AuthorizedExactlyAtThreshold(cfg: Config, w: World, id: Id)
    requires Reachable(cfg, w) && id in w.book
    ensures var s := w.book[id];
      && (s.intent.status == AuthorizedNoDispatch <==> Approves(s.approvals) == s.intent.requiredApprovals)
      && (s.intent.status == AuthorizedNoDispatch ==>
            && s.intent.policyAllowed && s.intent.stateVersion == 1 + s.intent.requiredApprovals
            && |s.approvals| == s.intent.requiredApprovals)
      && |s.envelopes| <= 1
  {
    hide Reachable, SliceInv;
    ReachableInv(cfg, w);
    SliceParts(cfg, w.registry, id, w.book[id]);
    PhaseThreshold(w.book[id]);
  }

  // Once decided, nothing any later run does changes the decision, its version or its approvals.
  lemma {:induction false} DecisionsAreFinal(cfg: Config, w: World, ops: seq<Op>, id: Id)
    requires Reachable(cfg, w) && id in w.book && w.book[id].intent.status != AwaitingApproval
    ensures id in Run(cfg, w, ops).book
    ensures var s' := Run(cfg, w, ops).book[id];
      s'.intent == w.book[id].intent && s'.approvals == w.book[id].approvals && w.book[id].events <= s'.events
  {
    hide Reachable, SliceInv;
    ReachableInv(cfg, w);
    RunEvolves(cfg, w, ops);
  }

  // ----- the expiry sweep -----

  // The same proposal, expired, with exactly one event more, which says so.
  ghost predicate Lapsed(s: Slice, s': Slice, now: int) {
    && s'.intent == s.intent.(status := Expired, stateVersion := s.intent.stateVersion + 1)
    && |s'.events| == |s.events| + 1 && s.events <= s'.events
    && Last(s'.events).body.eventType == ProposalExpired && Last(s'.events).body.occurredAt == now
    && Last(s'.events).body.actorId == "parimit-clock" && Last(s'.events).body.previousHash == Tip(s.events)
    && Get(Last(s'.events).body.payload, StatusField) == StatusText(Expired)
    && s'.approvals == s.approvals && s'.observations == s.observations && s'.envelopes == s.envelopes
  }

  lemma {:induction false} ExpiryLapses(s: Slice, now: int)
    ensures Lapsed(s, ExpiredSlice(s, now), now)
  {
  }

  // It always completes; afterwards nothing awaiting is overdue, each overdue intent gained
  // exactly one PROPOSAL_EXPIRED event, and no other intent changed.
  lemma {:induction false} SweepExpiresTheDue(cfg: Config, w: World, now: int)
    requires Reachable(cfg, w)
    ensures Sweep(w, now).result.Ok?
    ensures var w' := Sweep(w, now).world;
      && w'.book.Keys == w.book.Keys
      && (forall id :: id in w'.book && w'.book[id].intent.status == AwaitingApproval ==>
            now < w'.book[id].intent.expiresAt)
      && (forall id :: id in w.book ==>
            if w.book[id].intent.status == AwaitingApproval && w.book[id].intent.expiresAt <= now
            then Lapsed(w.book[id], w'.book[id], now) else w'.book[id] == w.book[id])
  {
    hide Reachable, WorldInv, SweepBlocked, ExpiredSlice;
    ReachableInv(cfg, w);
    SweepNeverBlocked(cfg, w, now);
    forall id | id in w.book && Due(w.book[id], now) ensures Lapsed(w.book[id], ExpiredSlice(w.book[id], now), now) {
      ExpiryLapses(w.book[id], now);
    }
  }

  // A decision that arrives at or past the deadline commits the expiry and fails.
  lemma {:induction false} LateDecisionExpires(cfg: Config, w: World, id: Id, actorId: string, role: Role,
                                               decision: Decision, at: int)
    requires Reachable(cfg, w) && w.signer.Some? && id in w.book
    requires w.book[id].intent.status == AwaitingApproval && w.book[id].intent.expiresAt <= at
    requires 1 <= |actorId| <= 128 && (role == Approver || role == Admin) && actorId != w.book[id].intent.agentId
    ensures var r := Review(cfg, w, id, actorId, role, decision, at);
      && r.result == Err(ProposalExpiredError) && id in r.world.book && Lapsed(w.book[id], r.world.book[id], at)
      && r.world == w.(book := w.book[id := r.world.book[id]])
      && (role == Admin ==> Cancel(cfg, w, id, actorId, role, at) == r)
  {
    hide Reachable, SliceInv, Green, ExpiredSlice, Lapsed;
    ReachableInv(cfg, w);
    GreenInWorld(cfg, w, id);
    DeadlineKeeps(cfg, w, id, at);
    ExpiryLapses(w.book[id], at);
  }

  // So does a cancellation, whether the requesting agent or an admin asks for it.
  lemma {:induction false} LateCancelExpires(cfg: Config, w: World, id: Id, actorId: string, role: Role, at: int)
    requires Reachable(cfg, w) && w.signer.Some? && id in w.book
    requires w.book[id].intent.status == AwaitingApproval && w.book[id].intent.expiresAt <= at
    requires 1 <= |actorId| <= 128 && (role == Admin || (role == Agent && actorId == w.book[id].intent.agentId))
    ensures var r := Cancel(cfg, w, id, actorId, role, at);
      && r.result == Err(ProposalExpiredError) && id in r.world.book && Lapsed(w.book[id], r.world.book[id], at)
      && r.world == w.(book := w.book[id := r.world.book[id]])
  {
    hide Reachable, SliceInv, Green, ExpiredSlice, Lapsed;
    ReachableInv(cfg, w);
    GreenInWorld(cfg, w, id);
    DeadlineKeeps(cfg, w, id, at);
    ExpiryLapses(w.book[id], at);
  }

  lemma {:induction false} GreenInWorld(cfg: Config, w: World, id: Id)
    requires WorldInv(cfg, w) && id in w.book
    ensures Green(cfg, w.registry, w.book[id])
  {
    hide Green;
    assert SliceInv(cfg, w.registry, id, w.book[id]);
  }

  // ----- IN_DOUBT -----

  lemma {:induction false} InDoubtFreezes(s: Slice, k: int)
    requires ObservationsConsistent(s.intent, s.observations, s.events) && ObservedInOrder(s)
    requires 0 <= k < |s.observations| && s.observations[k].status.InDoubt?
    ensures Frozen(s)
  {
    LatestIsLast(s.observations);
    assert !FrozenBefore(s.observations, |s.observations| - 1);
  }

  // Once an IN_DOUBT observation is stored, no run under any clock adds another.
  lemma {:induction false} InDoubtIsForever(cfg: Config, w: World, ops: seq<Op>, id: Id, k: int)
    requires Reachable(cfg, w) && id in w.book
    requires 0 <= k < |w.book[id].observations| && w.book[id].observations[k].status.InDoubt?
    ensures id in Run(cfg, w, ops).book && Run(cfg, w, ops).book[id].observations == w.book[id].observations
  {
    hide Reachable, SliceInv;
    ReachableInv(cfg, w);
    SliceParts(cfg, w.registry, id, w.book[id]);
    InDoubtFreezes(w.book[id], k);
    RunEvolves(cfg, w, ops);
  }

  // ----- envelope verification -----

  lemma {:induction false} OneIssueEvent(cfg: Config, reg: Registry, id: Id, s: Slice, eid: Id)
    requires SliceInv(cfg, reg, id, s) && eid in s.envelopes
    ensures var env := s.envelopes[eid];
      && env.compact.Jws? && env.compact.document.ClaimsDocument?
      && CountTrue(IssueEventMarks(s.events, env.compact.document.claims, env.compact)) == 1
  {
    EnvelopeFacts(cfg, reg, id, s, eid);
    var env := s.envelopes[eid];
    var c := env.compact.document.claims;
    assert |Select(s.events, IsIssue)| == 1;
    SoleIssueEvent(s.events, eid, env, c);
  }

  lemma {:induction false} SoleIssueEvent(events: seq<AuditEvent>, eid: Id, env: Envelope, c: Claims)
    requires CountTrue(IssueMarks(events, eid, env, c)) == 1 && |Select(events, IsIssue)| == 1
    requires c.jti == eid && env.claimsHash == OfClaims(c)
    ensures CountTrue(IssueEventMarks(events, c, env.compact)) == 1
  {
    var k := OneTrue(IssueMarks(events, eid, env, c));
    assert IssueMatches(events, k, eid, env, c);
    IndicesCount(events, IsIssue);
    assert k in Indices(events, IsIssue);
    var marks := IssueEventMarks(events, c, env.compact);
    assert marks[k] == IssueEventFor(events[k], c, env.compact);
    assert |Indices(events, IsIssue) - {k}| == 0;
    forall i | 0 <= i < |marks| && marks[i] ensures i == k {
      assert IssueEventFor(events[i], c, env.compact);
      assert i in Indices(events, IsIssue);
    }
    UniqueTrue(marks, k);
  }

  lemma {:induction false} StoredIsOwned(cfg: Config, w: World, id: Id, eid: Id)
    requires WorldInv(cfg, w) && id in w.book && eid in w.book[id].envelopes
    ensures OwnerOf(w.book, eid) == Some(id)
  {
    hide SliceInv;
  }

  lemma {:induction false} GreenRow(cfg: Config, reg: Registry, s: Slice)
    requires Green(cfg, reg, s)
    ensures s.intent.tenantId == cfg.tenantId && s.intent.policyReasons.Some?
    ensures OfIntent(PayloadFromRow(cfg, s.intent)) == s.intent.intentHash
  {
  }

  lemma {:induction false} StrictParts(c: Claims)
    requires StrictClaims(c)
    ensures c.verified == c.oidc && c.subjectIntent == c.snapshot.id
  {
  }

  lemma {:induction false} StoredBinding(cfg: Config, w: World, id: Id, eid: Id)
    requires WorldInv(cfg, w) && id in w.book && eid in w.book[id].envelopes
    ensures var env := w.book[id].envelopes[eid];
      && env.compact.Jws? && env.compact.document.ClaimsDocument?
      && BindingValid(cfg, w, env.compact, env.compact.document.claims)
      && LocallyIssued(cfg, w.book, env.compact, env.compact.document.claims)
      && StoredConsumption(cfg, w.book, env.compact.document.claims.jti) == ConsumptionOf(env)
  {
    hide Green, SliceInv, OwnersUnique, ConfigOk, StrictClaims, EnvelopeValid, VerifiedClaims, EnvelopeApprovals,
         IssueEventMarks;
    var s := w.book[id];
    GreenInWorld(cfg, w, id);
    GreenRow(cfg, w.registry, s);
    assert SliceInv(cfg, w.registry, id, s);
    EnvelopeFacts(cfg, w.registry, id, s, eid);
    StrictParts(s.envelopes[eid].compact.document.claims);
    OneIssueEvent(cfg, w.registry, id, s, eid);
    StoredIsOwned(cfg, w, id, eid);
  }

  lemma {:induction false} StoredSigned(cfg: Config, reg: Registry, id: Id, s: Slice, eid: Id)
    requires SliceInv(cfg, reg, id, s) && eid in s.envelopes
    ensures var env := s.envelopes[eid];
      && env.compact.Jws? && env.compact.document.ClaimsDocument?
      && var c := env.compact.document.claims;
      && TrustedJwk(cfg, reg, env.compact.kid).Some?
      && SignatureVerifies(env.compact, TrustedJwk(cfg, reg, env.compact.kid).value)
      && ParsedClaims(env.compact) == Some(c)
      && c.issuer == cfg.issuer && c.audience == cfg.audience && c.tenantId == cfg.tenantId
      && c.iat == c.nbf && 1 <= c.exp - c.iat <= cfg.envelopeTtlSeconds
  {
    hide SliceInv;
    EnvelopeFacts(cfg, reg, id, s, eid);
  }

  // A stored envelope verifies for its audience at exactly the seconds in [iat, exp), and at any
  // other second the time is the only complaint; either way its consumption is reported as stored.
  lemma {:induction false} StoredVerifies(cfg: Config, w: World, id: Id, eid: Id, now: int)
    requires WorldInv(cfg, w) && id in w.book && eid in w.book[id].envelopes
    ensures var env := w.book[id].envelopes[eid];
      && env.compact.Jws? && env.compact.document.ClaimsDocument?
      && var c := env.compact.document.claims;
      var v := Verify(cfg, w, env.compact, cfg.audience, now);
      && (v.valid <==> c.iat <= Seconds(now) < c.exp)
      && v == Verification(v.valid, true, true, v.valid, true, true, ConsumptionOf(env),
                           When(!v.valid, EnvelopeTimeInvalid), Some(c))
  {
    hide SliceInv, BindingValid, LocallyIssued, StoredConsumption, ConsumptionOf, StrictClaims, TrustedJwk,
         SignatureVerifies, ParsedClaims;
    StoredSigned(cfg, w.registry, id, w.book[id], eid);
    StoredBinding(cfg, w, id, eid);
  }

  lemma {:induction false} EnvelopeStays(w: World, w': World, id: Id, eid: Id)
    requires WorldEvolves(w, w') && id in w.book && eid in w.book[id].envelopes
    ensures id in w'.book && eid in w'.book[id].envelopes
    ensures EnvelopeEvolves(w.book[id].envelopes[eid], w'.book[id].envelopes[eid])
  {
  }

  // Whatever operations, rotations and clock readings follow, a stored envelope stays stored
  // under the same bytes and keeps verifying through its whole lifetime.
  lemma {:induction false} EnvelopeKeepsVerifying(cfg: Config, w: World, ops: seq<Op>, id: Id, eid: Id, now: int)
    requires Reachable(cfg, w) && id in w.book && eid in w.book[id].envelopes
    ensures var env, w' := w.book[id].envelopes[eid], Run(cfg, w, ops);
      && env.compact.Jws? && env.compact.document.ClaimsDocument?
      && id in w'.book && eid in w'.book[id].envelopes && EnvelopeEvolves(env, w'.book[id].envelopes[eid])
      && var c := env.compact.document.claims;
      (Verify(cfg, w', env.compact, cfg.audience, now).valid <==> c.iat <= Seconds(now) < c.exp)
  {
    hide Reachable, SliceInv, Verify;
    ReachableInv(cfg, w);
    RunEvolves(cfg, w, ops);
    StoredVerifies(cfg, w, id, eid, now);
    StoredVerifies(cfg, Run(cfg, w, ops), id, eid, now);
  }

  // The one event that tells of an envelope of these bytes and these claims.
  ghost predicate SoleIssue(events: seq<AuditEvent>, c: Claims, compact: CompactJws, k: int) {
    && 0 <= k < |events|
    && forall j :: 0 <= j < |events| ==>
         var e := events[j].body;
         (j == k <==> e.eventType == EvidenceEnvelopeIssued && Get(e.payload, EnvelopeIdField) == Text(c.jti)
                      && Get(e.payload, ClaimsHashField) == DigestText(OfClaims(c))
                      && Get(e.payload, JwsDigestField) == DigestText(OfJws(compact)))
  }

  lemma {:induction false} IssueToldOnce(events: seq<AuditEvent>, c: Claims, compact: CompactJws)
    requires CountTrue(IssueEventMarks(events, c, compact)) == 1
    ensures exists k :: SoleIssue(events, c, compact, k)
  {
    var marks := IssueEventMarks(events, c, compact);
    var k := OneTrue(marks);
    forall j | 0 <= j < |events|
      ensures j == k <==> IssueEventFor(events[j], c, compact)
    {
      assert marks[j] == IssueEventFor(events[j], c, compact);
    }
    assert SoleIssue(events, c, compact, k);
  }

  // A valid verdict, on tables of any content: the very bytes are stored under the claimed id,
  // the named intent is authorized, and its document, approvals and version are the claimed ones.
  lemma {:induction false} ValidMeansIssued(cfg: Config, w: World, compact: CompactJws, audience: string, now: int)
    requires Verify(cfg, w, compact, audience, now).valid
    ensures compact.Jws? && compact.document.ClaimsDocument?
    ensures var c := compact.document.claims;
      && audience == cfg.audience == c.audience && c.issuer == cfg.issuer && c.tenantId == cfg.tenantId
      && c.iat <= Seconds(now) < c.exp
      && (exists owner :: owner in w.book && c.jti in w.book[owner].envelopes
            && w.book[owner].envelopes[c.jti].compact == compact
            && w.book[owner].envelopes[c.jti].tenantId == cfg.tenantId)
      && c.snapshot.id in w.book
      && var s := w.book[c.snapshot.id];
      && Green(cfg, w.registry, s) && s.intent.status == AuthorizedNoDispatch && s.intent.tenantId == cfg.tenantId
      && s.intent.policyReasons.Some? && c.snapshot == PayloadFromRow(cfg, s.intent)
      && c.approvals == EnvelopeApprovals(s) && c.approvalSetDigest == OfApprovalSet(c.approvals)
      && c.authorizationStateVersion == s.intent.stateVersion && c.subjectIntent == c.snapshot.id
      && c.policyDigest == OfPolicySnapshot(c.snapshot.policy)
      && c.oidc == c.verified == cfg.oidc && c.trustDomain == cfg.trustDomain
      && c.intentDigest == s.intent.intentHash == OfIntent(c.snapshot)
      && exists k :: SoleIssue(s.events, c, compact, k)
  {
    hide Green, StrictClaims, SoleIssue;
    var c := ParsedClaims(compact).value;
    assert LocallyIssued(cfg, w.book, compact, c) && BindingValid(cfg, w, compact, c);
    assert OwnerOf(w.book, c.jti).value in w.book;
    IssueToldOnce(w.book[c.snapshot.id].events, c, compact);
  }

  // ----- issuing -----

  lemma {:induction false} ViewSucceeds(cfg: Config, w: World, id: Id, eid: Id)
    requires WorldInv(cfg, w) && id in w.book && eid in w.book[id].envelopes
    ensures View(cfg, w.registry, w.book[id], eid) == Ok(eid)
  {
    hide SliceInv, Green;
    GreenInWorld(cfg, w, id);
    EnvelopeFacts(cfg, w.registry, id, w.book[id], eid);
  }

  lemma {:induction false} FoundForState(cfg: Config, reg: Registry, id: Id, s: Slice)
    requires SliceInv(cfg, reg, id, s)
    ensures FindForState(cfg, s, cfg.audience).Some? <==> s.envelopes != map[]
    ensures FindForState(cfg, s, cfg.audience).Some? ==> s.envelopes.Keys == {FindForState(cfg, s, cfg.audience).value}
  {
    hide SliceInv;
    if FindForState(cfg, s, cfg.audience).None? {
      NoEnvelopeForState(cfg, reg, id, s);
    } else {
      var e := FindForState(cfg, s, cfg.audience).value;
      SliceParts(cfg, reg, id, s);
      OneEnvelope(s, e);
    }
  }

  // The envelope a fresh issue writes: the claims it signed, and nothing else stored.
  lemma {:induction false} IssuedTerms(cfg: Config, s: Slice, eid: Id, nonce: Nonce, ttl: int, at: int, key: string,
                                       signer: SigningKey, actorId: string)
    requires s.envelopes == map[] && s.intent.policyReasons.Some? && EnvelopeApprovals(s) != []
    requires 1 <= ttl && at + ttl * 1000 <= s.intent.expiresAt
    ensures var env := NewEnvelope(cfg, s, IssuedClaims(cfg, s, eid, nonce, ttl, at), key, signer);
      LifetimeIs(IssuedSlice(s, eid, env, actorId), eid, cfg.audience, key, ttl)
  {
    hide SortOn, ApproveRows, EnvelopeApprovals;
    LifetimeExact(at, ttl, s.intent.expiresAt);
  }

  // One envelope, for this audience and key, of exactly this lifetime, inside the intent's deadline.
  ghost predicate LifetimeIs(s: Slice, eid: Id, audience: string, key: string, ttl: int) {
    && s.envelopes.Keys == {eid}
    && var env := s.envelopes[eid];
    && env.compact.Jws? && env.compact.document.ClaimsDocument?
    && var c := env.compact.document.claims;
    && c.exp - c.iat == ttl && c.audience == audience && env.issuanceKey == key
    && c.issuedAt < c.exp * 1000 <= s.intent.expiresAt
  }

  // A stored envelope was issued before its expiry, which is inside the intent's deadline.
  lemma {:induction false} StoredLifetime(cfg: Config, reg: Registry, id: Id, s: Slice, eid: Id)
    requires SliceInv(cfg, reg, id, s) && eid in s.envelopes
    ensures s.envelopes[eid].compact.Jws? && s.envelopes[eid].compact.document.ClaimsDocument?
    ensures var c := s.envelopes[eid].compact.document.claims;
      c.issuedAt < c.exp * 1000 <= s.intent.expiresAt && c.audience == cfg.audience
  {
    hide SliceInv;
    EnvelopeFacts(cfg, reg, id, s, eid);
    hide SortOn, ApproveRows;
  }

  // An accepted request leaves an envelope of exactly the requested lifetime, inside the
  // intent's deadline, for the configured audience; a repeat returns the one already there.
  lemma {:induction false} IssueGrantsExactLifetime(cfg: Config, w: World, id: Id, audience: string, key: string,
                                                    ttl: int, actorId: string, role: Role, at: int, eid: Uuid,
                                                    nonce: Nonce)
    requires Reachable(cfg, w) && w.signer.Some?
    requires Issue(cfg, w, id, audience, key, ttl, actorId, role, at, eid, nonce).result.Ok?
    ensures var reply := Issue(cfg, w, id, audience, key, ttl, actorId, role, at, eid, nonce);
      && id in w.book && id in reply.world.book
      && LifetimeIs(reply.world.book[id], reply.result.value, audience, key, ttl)
      && (w.book[id].envelopes != map[] ==> reply.world == w)
  {
    hide Reachable, SliceInv, Green, StrictClaims, EnvelopeApprovals, VerifiedClaims, EnvelopeKeysFree, IssuedClaims,
         NewEnvelope, IssuedSlice;
    ReachableInv(cfg, w);
    var s := w.book[id];
    FoundForState(cfg, w.registry, id, s);
    if s.envelopes == map[] {
      IssuedTerms(cfg, s, eid, nonce, ttl, at, key, w.signer.value, actorId);
    } else {
      var e := FindForState(cfg, s, audience).value;
      ViewSucceeds(cfg, w, id, e);
      StoredLifetime(cfg, w.registry, id, s, e);
    }
  }

  // ----- consuming -----

  // Consumed at most once, inside the lifetime, with exactly one event to show for it.
  lemma {:induction false} ConsumedAtMostOnce(cfg: Config, w: World, id: Id, eid: Id)
    requires Reachable(cfg, w) && id in w.book && eid in w.book[id].envelopes
    ensures var env := w.book[id].envelopes[eid];
      && |Select(w.book[id].events, IsConsume)| == (if env.consumedAt.Some? then 1 else 0)
      && (env.consumedAt.Some? ==> env.issuedAt <= env.consumedAt.value < env.expiresAt
                                   && env.consumedBy.Some? && env.consumptionKey.Some?)
  {
    hide Reachable, SliceInv, Select;
    ReachableInv(cfg, w);
    var s := w.book[id];
    ConsumeEventCount(cfg, w.registry, id, s);
    SliceParts(cfg, w.registry, id, s);
    ConsumptionColumns(cfg, w.registry, id, s, eid);
    OneConsumed(s, eid);
  }

  lemma {:induction false} OneConsumed(s: Slice, eid: Id)
    requires |s.envelopes| <= 1 && eid in s.envelopes
    ensures |Consumed(s.envelopes)| == if s.envelopes[eid].consumedAt.Some? then 1 else 0
  {
    OneEnvelope(s, eid);
    assert Consumed(s.envelopes) == if s.envelopes[eid].consumedAt.Some? then {eid} else {};
  }

  lemma {:induction false} ConsumptionColumns(cfg: Config, reg: Registry, id: Id, s: Slice, eid: Id)
    requires SliceInv(cfg, reg, id, s) && eid in s.envelopes
    ensures var env := s.envelopes[eid];
      env.consumedAt.Some? ==> env.issuedAt <= env.consumedAt.value < env.expiresAt
                               && env.consumedBy.Some? && env.consumptionKey.Some?
  {
    hide SliceInv;
    EnvelopeFacts(cfg, reg, id, s, eid);
    hide SortOn, ApproveRows, StrictClaims, VerifiedClaims;
  }

  lemma {:induction false} ConsumeEventCount(cfg: Config, reg: Registry, id: Id, s: Slice)
    requires SliceInv(cfg, reg, id, s)
    ensures |Select(s.events, IsConsume)| == |Consumed(s.envelopes)|
  {
  }

  // A first consumption that is accepted writes the caller, the key and the reading, and one event.
  lemma {:induction false} ConsumeRecords(cfg: Config, w: World, compact: CompactJws, actorId: string, role: Role,
                                          key: string, verifyAt: int, expiryAt: int, consumeAt: int, id: Id, eid: Id)
    requires Reachable(cfg, w) && id in w.book && eid in w.book[id].envelopes
    requires w.book[id].envelopes[eid].compact == compact && w.book[id].envelopes[eid].consumedAt.None?
    requires Consume(cfg, w, compact, cfg.audience, actorId, role, key, verifyAt, expiryAt, consumeAt).result.Ok?
    ensures var env := w.book[id].envelopes[eid];
      var w' := Consume(cfg, w, compact, cfg.audience, actorId, role, key, verifyAt, expiryAt, consumeAt).world;
      && w' == w.(book := w.book[id := ConsumedSlice(w.book[id], eid, cfg.audience, actorId, key, consumeAt)])
      && env.issuedAt <= consumeAt < env.expiresAt
  {
    hide Reachable, SliceInv, Green, Verify, View, ConsumedSlice, CanAppend, StrictClaims, EnvelopeValid, ClaimsBind,
         VerifiedClaims;
    ReachableInv(cfg, w);
    StoredVerifies(cfg, w, id, eid, verifyAt);
    StoredIsOwned(cfg, w, id, eid);
    EnvelopeFacts(cfg, w.registry, id, w.book[id], eid);
  }

  lemma {:induction false} InvIsOk(cfg: Config, w: World)
    requires WorldInv(cfg, w)
    ensures ConfigOk(cfg)
  {
    hide SliceInv;
  }

  lemma {:induction false} StoredIsSound(cfg: Config, w: World, id: Id, eid: Id)
    requires WorldInv(cfg, w) && id in w.book && eid in w.book[id].envelopes
    ensures w.book[id].envelopes[eid].compact.Jws? && w.book[id].envelopes[eid].compact.document.ClaimsDocument?
    ensures w.book[id].envelopes[eid].compact.document.claims.jti == eid
  {
    hide SliceInv;
    EnvelopeFacts(cfg, w.registry, id, w.book[id], eid);
  }

  // What presenting a consumed envelope gets, in the world it stands in.
  lemma {:induction false} ConsumedReply(cfg: Config, w: World, id: Id, eid: Id, actorId: string, role: Role,
                                         key: string, verifyAt: int, expiryAt: int, consumeAt: int)
    requires WorldInv(cfg, w) && ConfigOk(cfg) && id in w.book && eid in w.book[id].envelopes
    requires w.book[id].envelopes[eid].consumedAt.Some?
    requires w.book[id].envelopes[eid].compact.Jws? && w.book[id].envelopes[eid].compact.document.ClaimsDocument?
    requires w.book[id].envelopes[eid].compact.document.claims.iat <= Seconds(verifyAt)
    requires IdentifierOk(actorId) && IdentifierOk(key) && (role.Consumer? || role.Admin?)
    ensures var env := w.book[id].envelopes[eid];
      var exp := env.compact.document.claims.exp;
      Consume(cfg, w, env.compact, cfg.audience, actorId, role, key, verifyAt, expiryAt, consumeAt)
      == Reply(w, if exp <= Seconds(verifyAt) && Seconds(expiryAt) < exp then Err(EnvelopeInvalid)
                  else if env.consumedBy == Some(actorId) && env.consumptionKey == Some(key) then Ok(eid)
                  else Err(EnvelopeReplayDetected))
  {
    hide WorldInv, Verify, View, OwnerOf, ConsumedSlice, CanAppend, IdentifierOk;
    StoredVerifies(cfg, w, id, eid, verifyAt);
    StoredIsOwned(cfg, w, id, eid);
    ViewSucceeds(cfg, w, id, eid);
    StoredIsSound(cfg, w, id, eid);
  }

  // After that, in every later world and at every clock reading from iat on - even past
  // expiry - the same caller and key get the same record back, and every other pair is
  // refused; neither changes anything. The one exception: the first reading is past expiry
  // and the second, in the same call, is back before it.
  lemma {:induction false} ConsumptionReplays(cfg: Config, w: World, ops: seq<Op>, id: Id, eid: Id, actorId: string,
                                              role: Role, key: string, verifyAt: int, expiryAt: int, consumeAt: int)
    requires Reachable(cfg, w) && id in w.book && eid in w.book[id].envelopes
    requires w.book[id].envelopes[eid].consumedAt.Some?
    requires w.book[id].envelopes[eid].compact.Jws? && w.book[id].envelopes[eid].compact.document.ClaimsDocument?
    requires w.book[id].envelopes[eid].compact.document.claims.iat <= Seconds(verifyAt)
    requires IdentifierOk(actorId) && IdentifierOk(key) && (role.Consumer? || role.Admin?)
    ensures var env, w' := w.book[id].envelopes[eid], Run(cfg, w, ops);
      var exp := env.compact.document.claims.exp;
      Consume(cfg, w', env.compact, cfg.audience, actorId, role, key, verifyAt, expiryAt, consumeAt)
      == Reply(w', if exp <= Seconds(verifyAt) && Seconds(expiryAt) < exp then Err(EnvelopeInvalid)
                   else if env.consumedBy == Some(actorId) && env.consumptionKey == Some(key) then Ok(eid)
                   else Err(EnvelopeReplayDetected))
  {
    hide Reachable, WorldInv, Verify, SliceEvolves, WorldEvolves, Consume, Run;
    ReachableInv(cfg, w);
    var w' := Run(cfg, w, ops);
    RunEvolves(cfg, w, ops);
    EnvelopeStays(w, w', id, eid);
    InvIsOk(cfg, w);
    ConsumedReply(cfg, w', id, eid, actorId, role, key, verifyAt, expiryAt, consumeAt);
  }
}
