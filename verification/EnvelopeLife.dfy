// Issuing and consuming an evidence envelope keep the invariant; so does every
// growth of the signing-key registry.
module EnvelopeLife {
  import opened Ordering
  import opened Basics
  import opened Evidence
  import opened Integrity
  import opened Counting
  import opened Operations
  import opened Invariant
  import opened Preservation

  // ----- the approvals an envelope lists -----

  lemma {:induction false} ApproveRowsAll(approvals: seq<Approval>)
    requires AllApprove(approvals, |approvals|)
    ensures |ApproveRows(approvals)| == |approvals|
    ensures forall i :: 0 <= i < |approvals| ==> ApproveRows(approvals)[i] == ToEnvelopeApproval(approvals[i])
  {
    if approvals != [] {
      var init := approvals[..|approvals| - 1];
      assert forall i :: 0 <= i < |init| ==> init[i] == approvals[i];
      ApproveRowsAll(init);
    }
  }

  // One or two rows sort to themselves or swap.
  lemma {:induction false} SortSmall(rows: seq<EnvelopeApproval>)
    requires 1 <= |rows| <= 2
    ensures |SortOn(rows, ApprovalKey)| == |rows|
    ensures SortOn(rows, ApprovalKey) == rows || (|rows| == 2 && SortOn(rows, ApprovalKey) == [rows[1], rows[0]])
    ensures forall i :: 0 <= i < |rows| ==>
      SortOn(rows, ApprovalKey)[i].decidedAt <= Last(SortOn(rows, ApprovalKey)).decidedAt
    ensures SortOn(SortOn(rows, ApprovalKey), ApprovalKey) == SortOn(rows, ApprovalKey)
  {
    SortOnSorts(rows, ApprovalKey);
    var sorted := SortOn(rows, ApprovalKey);
    SortedIsFixed(sorted, ApprovalKey);
    assert |rows| == 2 ==> KeyLeq(ApprovalKey(sorted[0]), ApprovalKey(sorted[1]));
    SortedIsFixed(rows[1..], ApprovalKey);
    assert rows == [rows[0]] + rows[1..];
    if |rows| == 2 {
      assert rows[1..] == [rows[1]] && [rows[1]][1..] == [];
      assert Insert(rows[0], [], ApprovalKey) == [rows[0]];
      assert sorted == Insert(rows[0], [rows[1]], ApprovalKey);
    } else {
      assert rows[1..] == [] && sorted == [rows[0]];
    }
  }

  ghost predicate ListsApproval(s: Slice, a: EnvelopeApproval) {
    exists j :: 0 <= j < |s.approvals| && a == ToEnvelopeApproval(s.approvals[j])
  }

  lemma {:induction false} DistinctPair(row: Intent, approvals: seq<Approval>)
    requires ApprovalsConsistent(row, approvals) && |approvals| == 2
    ensures approvals[0].actorId != approvals[1].actorId
  {
    assert SemanticsValid(row, approvals, 1);
    assert !Repeated(approvals, 1);
  }

  lemma {:induction false} ListedFrom(s: Slice, listed: seq<EnvelopeApproval>, rows: seq<EnvelopeApproval>)
    requires |rows| == |s.approvals| && forall i :: 0 <= i < |rows| ==> rows[i] == ToEnvelopeApproval(s.approvals[i])
    requires listed == rows || (|rows| == 2 && listed == [rows[1], rows[0]])
    ensures forall i :: 0 <= i < |listed| ==> ListsApproval(s, listed[i])
  {
    forall i | 0 <= i < |listed| ensures ListsApproval(s, listed[i]) {
      var j := if listed == rows then i else 1 - i;
      assert listed[i] == ToEnvelopeApproval(s.approvals[j]);
    }
  }

  // The envelope's approval list: the rows, sorted, each by a different person.
  lemma {:induction false} EnvelopeApprovalsFacts(s: Slice)
    requires AllApprove(s.approvals, |s.approvals|) && 1 <= |s.approvals| <= 2
    requires |s.approvals| == 2 ==> s.approvals[0].actorId != s.approvals[1].actorId
    ensures var listed := EnvelopeApprovals(s);
      && |listed| == |s.approvals|
      && SortOn(listed, ApprovalKey) == listed
      && SubjectsDistinct(listed)
      && (forall i :: 0 <= i < |listed| ==> listed[i].decidedAt <= Last(listed).decidedAt)
      && (forall i :: 0 <= i < |listed| ==> ListsApproval(s, listed[i]))
  {
    ApproveRowsAll(s.approvals);
    var rows := ApproveRows(s.approvals);
    SortSmall(rows);
    hide SortOn, ApproveRows, KeyLeq;
    ListedFrom(s, EnvelopeApprovals(s), rows);
  }

  // ----- issuing -----

  ghost predicate KeyRegistered(cfg: Config, reg: Registry, signer: SigningKey) {
    && RegistryValid(cfg, reg)
    && signer.keyId in reg.rows && reg.rows[signer.keyId].jwk == PublicHalf(signer)
  }

  // The conditions issueAuthorizationEnvelope has established when it signs.
  ghost predicate MaySign(cfg: Config, s: Slice, ttl: int, at: int) {
    && s.intent.status == AuthorizedNoDispatch && s.envelopes == map[]
    && 1 <= ttl <= cfg.envelopeTtlSeconds
    && at < s.intent.expiresAt && at + ttl * 1000 <= s.intent.expiresAt
    && s.intent.policyReasons.Some?
    && EnvelopeApprovals(s) != [] && Last(EnvelopeApprovals(s)).decidedAt <= at
  }

  // And, once the clock has been checked too, when it stores.
  ghost predicate MayIssue(cfg: Config, s: Slice, ttl: int, at: int) { MaySign(cfg, s, ttl, at) && CanAppend(s, at) }

  // exp - iat is exactly the requested lifetime, and flooring loses no ordering.
  lemma {:induction false} LifetimeExact(at: int, ttl: int, deadline: int)
    requires 1 <= ttl && at + ttl * 1000 <= deadline
    ensures Seconds(at + ttl * 1000) - Seconds(at) == ttl
    ensures at < Seconds(at + ttl * 1000) * 1000 <= deadline
  {
  }

  lemma {:induction false} ListedApprovalValid(cfg: Config, s: Slice, c: Claims, a: EnvelopeApproval)
    requires ReceiptsValid(cfg, s.intent, s.approvals) && ApprovalsConsistent(s.intent, s.approvals)
    requires AllApprove(s.approvals, |s.approvals|) && ListsApproval(s, a)
    requires c.intentDigest == s.intent.intentHash && a.decidedAt <= c.issuedAt
    requires c.snapshot.createdAt == s.intent.createdAt && c.snapshot.expiresAt == s.intent.expiresAt
    ensures EnvelopeApprovalValid(c, a)
  {
    var j :| 0 <= j < |s.approvals| && a == ToEnvelopeApproval(s.approvals[j]);
    assert ReceiptValid(cfg, s.intent, s.approvals[j]) && SemanticsValid(s.intent, s.approvals, j);
  }

  // The approvals the claims list are the sorted rows, each valid for these claims.
  lemma {:induction false} IssuedListValid(cfg: Config, s: Slice, eid: Id, nonce: Nonce, ttl: int, at: int)
    requires MaySign(cfg, s, ttl, at) && AllApprove(s.approvals, |s.approvals|) && 1 <= |s.approvals| <= 2
    requires ReceiptsValid(cfg, s.intent, s.approvals) && ApprovalsConsistent(s.intent, s.approvals)
    ensures var c := IssuedClaims(cfg, s, eid, nonce, ttl, at);
      && |c.approvals| == |s.approvals| && SubjectsDistinct(c.approvals)
      && SortOn(c.approvals, ApprovalKey) == c.approvals
      && forall i :: 0 <= i < |c.approvals| ==> EnvelopeApprovalValid(c, c.approvals[i])
  {
    hide EnvelopeApprovals, SortOn, EnvelopeApprovalValid, ListsApproval, ReceiptsValid, ApprovalsConsistent,
         SubjectsDistinct;
    var c := IssuedClaims(cfg, s, eid, nonce, ttl, at);
    if |s.approvals| == 2 { DistinctPair(s.intent, s.approvals); }
    EnvelopeApprovalsFacts(s);
    forall i | 0 <= i < |c.approvals| ensures EnvelopeApprovalValid(c, c.approvals[i]) {
      ListedApprovalValid(cfg, s, c, c.approvals[i]);
    }
  }

  lemma {:induction false} FirstApprovalAfterCreation(c: Claims, a: EnvelopeApproval)
    requires EnvelopeApprovalValid(c, a)
    ensures c.snapshot.createdAt <= a.decidedAt <= c.issuedAt
  {
  }

  // "Constructed evidence-envelope claims failed internal validation" never fires.
  lemma {:induction false} IssuedClaimsStrict(cfg: Config, s: Slice, eid: Id, nonce: Nonce, ttl: int, at: int)
    requires ConfigOk(cfg) && MaySign(cfg, s, ttl, at) && Phase(s)
    requires RowConsistent(cfg, s.intent) && IntentHashValid(cfg, s.intent) && s.intent.createdAt < s.intent.expiresAt
    requires ReceiptsValid(cfg, s.intent, s.approvals) && ApprovalsConsistent(s.intent, s.approvals)
    requires s.intent.stateVersion == 1 + |s.approvals| && s.intent.policyAllowed
    requires s.events != [] && IsSha256Hex(Tip(s.events))
    ensures StrictClaims(IssuedClaims(cfg, s, eid, nonce, ttl, at))
  {
    hide EnvelopeApprovals, SortOn, EnvelopeApprovalValid, ReceiptsValid, ApprovalsConsistent, SubjectsDistinct,
         ReasonsConsistent;
    var c := IssuedClaims(cfg, s, eid, nonce, ttl, at);
    IssuedListValid(cfg, s, eid, nonce, ttl, at);
    LifetimeExact(at, ttl, s.intent.expiresAt);
    FirstApprovalAfterCreation(c, c.approvals[0]);
  }

  lemma {:induction false} IssuePayloadMatches(events: seq<AuditEvent>, i: nat, eid: Id, env: Envelope, c: Claims)
    requires i < |events| && events[i].body.payload == IssuePayload(eid, env)
    requires IsIssue(events[i].body.eventType) && events[i].body.occurredAt == env.issuedAt
    requires i == c.eventCount && events[i].body.previousHash == c.chainTip
    ensures IssueMatches(events, i, eid, env, c)
  {
    IssuePayloadSays(eid, env);
    hide IssuePayload, Get;
  }

  lemma {:induction false} IssuePayloadSays(eid: Id, env: Envelope)
    ensures var p := IssuePayload(eid, env);
      && IsRecord(p)
      && Get(p, EnvelopeIdField) == Text(eid) && Get(p, AudienceField) == Text(env.audience)
      && Get(p, StateVersionField) == Number(env.stateVersion) && Get(p, KeyIdField) == Text(env.keyId)
      && Get(p, ClaimsHashField) == DigestText(env.claimsHash)
      && Get(p, JwsDigestField) == DigestText(OfJws(env.compact))
      && Get(p, IssuanceHashField) == DigestText(OfText(env.issuanceKey))
      && Get(p, ExpiresAtField) == TimeText(env.expiresAt)
      && Get(p, ExecutionAuthorizedField) == Flag(false) && Get(p, MovesMoneyField) == Flag(false)
  {
  }

  lemma {:induction false} SignedVerifies(cfg: Config, reg: Registry, signer: SigningKey, c: Claims)
    requires KeyRegistered(cfg, reg, signer) && StrictClaims(c)
    ensures VerifiedClaims(cfg, reg, signer.keyId, Sign(ClaimsDocument(c), signer)) == Some(c)
  {
  }

  lemma {:induction false} NoMarksWithoutKind(events: seq<AuditEvent>, eid: Id, env: Envelope, c: Claims)
    ensures |Select(events, IsIssue)| == 0 ==> CountTrue(IssueMarks(events, eid, env, c)) == 0
    ensures |Select(events, IsConsume)| == 0 ==> CountTrue(ConsumeMarks(events, eid, env)) == 0
  {
    SelectNone(events, IsIssue);
    SelectNone(events, IsConsume);
    NoneTrue(IssueMarks(events, eid, env, c));
    NoneTrue(ConsumeMarks(events, eid, env));
  }

  lemma {:induction false} IssuedCounts(s: Slice, c: Claims, env: Envelope, actorId: string)
    requires |Select(s.events, IsIssue)| == 0 && |Select(s.events, IsConsume)| == 0
    requires c.eventCount == |s.events| && c.chainTip == Tip(s.events)
    ensures var events := IssuedSlice(s, c.jti, env, actorId).events;
      && CountTrue(IssueMarks(events, c.jti, env, c)) == 1
      && CountTrue(ConsumeMarks(events, c.jti, env)) == 0
  {
    var s' := IssuedSlice(s, c.jti, env, actorId);
    var e := Last(s'.events);
    assert s'.events == s.events + [e];
    NoMarksWithoutKind(s.events, c.jti, env, c);
    IssueMarksSnoc(s.events, e, c.jti, env, c);
    ConsumeMarksSnoc(s.events, e, c.jti, env);
    IssuePayloadMatches(s'.events, |s.events|, c.jti, env, c);
  }

  lemma {:induction false} IssuedEnvelopeValid(cfg: Config, reg: Registry, s: Slice, c: Claims, key: string,
                                               signer: SigningKey, actorId: string)
    requires KeyRegistered(cfg, reg, signer) && StrictClaims(c)
    requires |Select(s.events, IsIssue)| == 0 && |Select(s.events, IsConsume)| == 0
    requires c.snapshot.id == s.intent.id && c.tenantId == cfg.tenantId
    requires c.authorizationStateVersion == s.intent.stateVersion
    requires c.eventCount == |s.events| && c.chainTip == Tip(s.events)
    ensures var env := NewEnvelope(cfg, s, c, key, signer);
      EnvelopeValid(cfg, reg, s.intent.id, IssuedSlice(s, c.jti, env, actorId).events, c.jti, env)
  {
    var env := NewEnvelope(cfg, s, c, key, signer);
    SignedVerifies(cfg, reg, signer, c);
    IssuedCounts(s, c, env, actorId);
  }

  // One envelope, valid against the grown log, with the events it should have.
  lemma {:induction false} OneEnvelopeConsistent(cfg: Config, reg: Registry, s: Slice, s': Slice, e: AuditEvent,
                                                 eid: Id, env: Envelope)
    requires s'.intent == s.intent && s'.events == s.events + [e] && s'.envelopes == map[eid := env]
    requires EnvelopeValid(cfg, reg, s.intent.id, s'.events, eid, env)
    requires |Select(s.events, IsIssue)| + (if IsIssue(e.body.eventType) then 1 else 0) == 1
    requires |Select(s.events, IsConsume)| + (if IsConsume(e.body.eventType) then 1 else 0)
      == (if env.consumedAt.Some? then 1 else 0)
    ensures EnvelopesConsistent(cfg, reg, s')
  {
    hide EnvelopeValid, IsIssue, IsConsume;
    SelectSnoc(s.events, e, IsIssue);
    SelectSnoc(s.events, e, IsConsume);
    hide Select;
    assert Consumed(s'.envelopes) == if env.consumedAt.Some? then {eid} else {};
  }

  lemma {:induction false} NoEnvelopeYet(cfg: Config, reg: Registry, s: Slice)
    requires EnvelopesConsistent(cfg, reg, s) && s.envelopes == map[]
    ensures |Select(s.events, IsIssue)| == 0 && |Select(s.events, IsConsume)| == 0
  {
    hide EnvelopeValid;
    assert Consumed(s.envelopes) == {};
  }

  lemma {:induction false} IssuedEnvelopesConsistent(cfg: Config, reg: Registry, s: Slice, c: Claims, key: string,
                                                     signer: SigningKey, actorId: string)
    requires KeyRegistered(cfg, reg, signer) && StrictClaims(c) && s.envelopes == map[]
    requires EnvelopesConsistent(cfg, reg, s)
    requires c.snapshot.id == s.intent.id && c.tenantId == cfg.tenantId
    requires c.authorizationStateVersion == s.intent.stateVersion
    requires c.eventCount == |s.events| && c.chainTip == Tip(s.events)
    ensures EnvelopesConsistent(cfg, reg, IssuedSlice(s, c.jti, NewEnvelope(cfg, s, c, key, signer), actorId))
  {
    var env := NewEnvelope(cfg, s, c, key, signer);
    var s' := IssuedSlice(s, c.jti, env, actorId);
    NoEnvelopeYet(cfg, reg, s);
    hide Select, EnvelopesConsistent;
    IssuedEnvelopeValid(cfg, reg, s, c, key, signer, actorId);
    hide EnvelopeValid, StrictClaims, IssuePayload, Sign, KeyRegistered;
    var e := NewEvent(s, EvidenceEnvelopeIssued, actorId, IssuePayload(c.jti, env), env.issuedAt);
    OneEnvelopeConsistent(cfg, reg, s, s', e, c.jti, env);
  }

  // An appended issue or consume event, and nothing else but the envelopes.
  ghost predicate Quietly(s: Slice, s': Slice, e: AuditEvent) {
    && s' == s.(events := s.events + [e], envelopes := s'.envelopes)
    && (IsIssue(e.body.eventType) || IsConsume(e.body.eventType))
    && Extends(s.intent, s.intent, s.events, e)
  }

  lemma {:induction false} QuietStatus(row: Intent, events: seq<AuditEvent>, e: AuditEvent)
    requires StatusConsistent(row, events) && (IsIssue(e.body.eventType) || IsConsume(e.body.eventType))
    ensures StatusConsistent(row, events + [e])
    ensures |Select(events + [e], IsTerminal)| == |Select(events, IsTerminal)|
  {
    assert |Select(events, IsTerminal)| <= 1;
    hide StatusConsistent, Select, Get;
    StatusSnoc(row, row, events, e);
  }

  // An event that is neither a review, a terminal event nor an observation.
  lemma {:induction false} QuietLog(cfg: Config, s: Slice, s': Slice, e: AuditEvent)
    requires Quietly(s, s', e)
    requires ChainValid(s.intent, s.events) && StatusConsistent(s.intent, s.events)
    requires InitialEventConsistent(cfg, s.intent, s.events) && InitialTenantStateConsistent(cfg, s.events)
    requires ReviewsConsistent(s.approvals, s.events) && ObservationsConsistent(s.intent, s.observations, s.events)
    ensures ChainValid(s'.intent, s'.events) && StatusConsistent(s'.intent, s'.events)
    ensures InitialEventConsistent(cfg, s'.intent, s'.events) && InitialTenantStateConsistent(cfg, s'.events)
    ensures ReviewsConsistent(s'.approvals, s'.events) && ObservationsConsistent(s'.intent, s'.observations, s'.events)
    ensures |Select(s'.events, IsTerminal)| == |Select(s.events, IsTerminal)|
  {
    QuietStatus(s.intent, s.events, e);
    hide Extends, Select, ChainValid, StatusConsistent, InitialEventConsistent, InitialTenantStateConsistent,
         ReviewsConsistent, ObservationsConsistent;
    LogSnoc(cfg, s.intent, s.intent, s.events, e);
    ReviewsSnoc(s.approvals, s.events, e);
    ObservationsSnoc(s.intent, s.intent, s.observations, s.events, e);
  }

  lemma {:induction false} QuietGreen(cfg: Config, reg: Registry, s: Slice, s': Slice, e: AuditEvent)
    requires Green(cfg, reg, s) && Phase(s)
    requires Quietly(s, s', e)
    requires EnvelopesConsistent(cfg, reg, s')
    ensures Green(cfg, reg, s') && |Select(s'.events, IsTerminal)| == |Select(s.events, IsTerminal)|
  {
    QuietLog(cfg, s, s', e);
    hide Quietly;
    GreenAfter(cfg, reg, s, s');
  }

  lemma {:induction false} QuietLifecycle(cfg: Config, id: Id, s: Slice, s': Slice, e: AuditEvent)
    requires Lifecycle(cfg, id, s) && s.intent.status == AuthorizedNoDispatch
    requires Quietly(s, s', e) && !IsReview(e.body.eventType)
    requires |Select(s'.events, IsTerminal)| == |Select(s.events, IsTerminal)|
    requires EnvelopesBind(cfg, s')
    ensures Lifecycle(cfg, id, s')
  {
    KnownSnoc(s, s', e);
  }

  lemma {:induction false} IssuedBinds(cfg: Config, s: Slice, eid: Id, nonce: Nonce, ttl: int, at: int, key: string,
                                       signer: SigningKey, actorId: string)
    requires ConfigOk(cfg) && MayIssue(cfg, s, ttl, at)
    ensures var c := IssuedClaims(cfg, s, eid, nonce, ttl, at);
      var env := NewEnvelope(cfg, s, c, key, signer);
      EnvelopesBind(cfg, IssuedSlice(s, eid, env, actorId))
  {
    LifetimeExact(at, ttl, s.intent.expiresAt);
    var c := IssuedClaims(cfg, s, eid, nonce, ttl, at);
    var env := NewEnvelope(cfg, s, c, key, signer);
    assert IssuedSlice(s, eid, env, actorId).envelopes == map[eid := env];
  }

  lemma {:induction false} GreenTip(cfg: Config, reg: Registry, s: Slice)
    requires Green(cfg, reg, s)
    ensures s.events != [] && IsSha256Hex(Tip(s.events))
  {
    hide ReceiptsValid, RowConsistent, ApprovalsConsistent, InitialEventConsistent, ReviewsConsistent,
         ObservationsConsistent, EnvelopesConsistent, StatusConsistent, ThresholdConsistent, IntentHashValid;
    assert EventValid(s.intent, s.events, |s.events| - 1);
  }

  lemma {:induction false} IssuedQuietly(cfg: Config, s: Slice, eid: Id, nonce: Nonce, ttl: int, at: int, key: string,
                                         signer: SigningKey, actorId: string)
    requires MayIssue(cfg, s, ttl, at)
    ensures var c := IssuedClaims(cfg, s, eid, nonce, ttl, at);
      var s' := IssuedSlice(s, eid, NewEnvelope(cfg, s, c, key, signer), actorId);
      && c.jti == eid && c.snapshot.id == s.intent.id && c.tenantId == cfg.tenantId
      && c.authorizationStateVersion == s.intent.stateVersion && c.eventCount == |s.events|
      && c.chainTip == Tip(s.events)
      && s'.events != [] && Quietly(s, s', Last(s'.events)) && !IsReview(Last(s'.events).body.eventType)
  {
    hide EnvelopeApprovals, SortOn;
    var s' := IssuedSlice(s, eid, NewEnvelope(cfg, s, IssuedClaims(cfg, s, eid, nonce, ttl, at), key, signer), actorId);
    assert s'.events[..|s.events|] == s.events;
  }

  lemma {:induction false} AuthorizedVersion(cfg: Config, reg: Registry, id: Id, s: Slice)
    requires SliceInv(cfg, reg, id, s) && s.intent.status == AuthorizedNoDispatch
    ensures s.intent.stateVersion == 1 + |s.approvals| && |s.approvals| == s.intent.requiredApprovals
    ensures s.intent.policyAllowed
  {
  }

  // So it never fires on a proposal the invariant covers.
  lemma {:induction false} SigningIsStrict(cfg: Config, reg: Registry, id: Id, s: Slice, eid: Id, nonce: Nonce,
                                           ttl: int, at: int)
    requires ConfigOk(cfg) && SliceInv(cfg, reg, id, s) && MaySign(cfg, s, ttl, at)
    ensures StrictClaims(IssuedClaims(cfg, s, eid, nonce, ttl, at))
  {
    InvariantParts(cfg, reg, id, s);
    GreenTip(cfg, reg, s);
    AuthorizedVersion(cfg, reg, id, s);
    hide SliceInv, Green, Lifecycle, RowConsistent, IntentHashValid, ReceiptsValid, ApprovalsConsistent,
         EnvelopesConsistent, EnvelopesBind, Phase;
    IssuedClaimsStrict(cfg, s, eid, nonce, ttl, at);
  }

  lemma {:induction false} IssueKeeps(cfg: Config, reg: Registry, id: Id, s: Slice, eid: Id, nonce: Nonce, ttl: int,
                                      at: int, key: string, signer: SigningKey, actorId: string)
    requires ConfigOk(cfg) && SliceInv(cfg, reg, id, s) && MayIssue(cfg, s, ttl, at) && KeyRegistered(cfg, reg, signer)
    ensures var c := IssuedClaims(cfg, s, eid, nonce, ttl, at);
      && StrictClaims(c)
      && SliceInv(cfg, reg, id, IssuedSlice(s, eid, NewEnvelope(cfg, s, c, key, signer), actorId))
  {
    InvariantParts(cfg, reg, id, s);
    SigningIsStrict(cfg, reg, id, s, eid, nonce, ttl, at);
    hide Green, Lifecycle, RowConsistent, IntentHashValid, ReceiptsValid, ApprovalsConsistent, EnvelopesConsistent,
         EnvelopesBind, Phase;
    IssuedQuietly(cfg, s, eid, nonce, ttl, at, key, signer, actorId);
    hide StrictClaims, IssuedClaims, NewEnvelope, IssuedSlice, Quietly, KeyRegistered;
    var c := IssuedClaims(cfg, s, eid, nonce, ttl, at);
    var env := NewEnvelope(cfg, s, c, key, signer);
    var s' := IssuedSlice(s, eid, env, actorId);
    IssuedEnvelopesConsistent(cfg, reg, s, c, key, signer, actorId);
    QuietGreen(cfg, reg, s, s', Last(s'.events));
    IssuedBinds(cfg, s, eid, nonce, ttl, at, key, signer, actorId);
    QuietLifecycle(cfg, id, s, s', Last(s'.events));
  }

  // ----- consuming -----

  ghost predicate MayConsume(s: Slice, eid: Id, audience: string, at: int) {
    && eid in s.envelopes && s.envelopes[eid].consumedAt.None?
    && audience == s.envelopes[eid].audience
    && s.envelopes[eid].issuedAt <= at < s.envelopes[eid].expiresAt
    && CanAppend(s, at)
  }

  lemma {:induction false} OneEnvelope(s: Slice, eid: Id)
    requires |s.envelopes| <= 1 && eid in s.envelopes
    ensures s.envelopes == map[eid := s.envelopes[eid]] && s.envelopes.Keys == {eid}
  {
    assert |s.envelopes.Keys - {eid}| == 0;
    assert s.envelopes.Keys == {eid};
  }

  lemma {:induction false} ConsumePayloadMatches(e: AuditEvent, eid: Id, env: Envelope)
    requires env.consumedAt == Some(e.body.occurredAt) && env.consumedBy == Some(e.body.actorId)
    requires env.consumptionKey.Some?
    requires IsConsume(e.body.eventType)
    requires e.body.payload
      == ConsumePayload(eid, env.audience, e.body.actorId, env.consumptionKey.value, env.stateVersion)
    ensures ConsumeMatches(e.body, eid, env)
  {
  }

  // issueMatches never looks at the consumption columns.
  lemma {:induction false} IssueMarksIgnoreConsumption(events: seq<AuditEvent>, eid: Id, env: Envelope, actorId: string,
                                                       key: string, at: int, c: Claims)
    ensures IssueMarks(events, eid, ConsumedEnvelope(env, actorId, key, at), c) == IssueMarks(events, eid, env, c)
  {
    var env' := ConsumedEnvelope(env, actorId, key, at);
    assert forall i :: 0 <= i < |events| ==>
      IssueMatches(events, i, eid, env', c) == IssueMatches(events, i, eid, env, c);
  }

  lemma {:induction false} ConsumedEnvelopeValid(cfg: Config, reg: Registry, id: Id, s: Slice, e: AuditEvent, eid: Id,
                                                 env: Envelope, actorId: string, key: string, at: int)
    requires EnvelopeValid(cfg, reg, id, s.events, eid, env) && env.consumedAt.None?
    requires env.issuedAt <= at < env.expiresAt
    requires |Select(s.events, IsConsume)| == 0
    requires e.body.eventType == EvidenceEnvelopeConsumed && e.body.actorId == actorId && e.body.occurredAt == at
    requires e.body.payload == ConsumePayload(eid, env.audience, actorId, key, env.stateVersion)
    ensures EnvelopeValid(cfg, reg, id, s.events + [e], eid, ConsumedEnvelope(env, actorId, key, at))
  {
    var env' := ConsumedEnvelope(env, actorId, key, at);
    var c := VerifiedClaims(cfg, reg, env.keyId, env.compact).value;
    IssueMarksIgnoreConsumption(s.events, eid, env, actorId, key, at, c);
    IssueMarksSnoc(s.events, e, eid, env', c);
    NoMarksWithoutKind(s.events, eid, env', c);
    ConsumeMarksSnoc(s.events, e, eid, env');
    ConsumePayloadMatches(e, eid, env');
  }

  lemma {:induction false} OneUnconsumedYet(cfg: Config, reg: Registry, s: Slice, eid: Id)
    requires EnvelopesConsistent(cfg, reg, s) && |s.envelopes| <= 1 && eid in s.envelopes
    requires s.envelopes[eid].consumedAt.None?
    ensures |Select(s.events, IsIssue)| == 1 && |Select(s.events, IsConsume)| == 0
    ensures EnvelopeValid(cfg, reg, s.intent.id, s.events, eid, s.envelopes[eid])
  {
    hide EnvelopeValid;
    OneEnvelope(s, eid);
    assert Consumed(s.envelopes) == {};
  }

  lemma {:induction false} ConsumedParts(s: Slice, eid: Id, audience: string, actorId: string, key: string, at: int)
    requires eid in s.envelopes && s.envelopes == map[eid := s.envelopes[eid]]
    ensures var env, s' := s.envelopes[eid], ConsumedSlice(s, eid, audience, actorId, key, at);
      && s'.events != []
      && var e := Last(s'.events);
      && s'.intent == s.intent && s'.events == s.events + [e]
      && s'.envelopes == map[eid := ConsumedEnvelope(env, actorId, key, at)]
      && e.body.eventType == EvidenceEnvelopeConsumed && e.body.actorId == actorId && e.body.occurredAt == at
      && e.body.payload == ConsumePayload(eid, audience, actorId, key, env.stateVersion)
  {
    hide ConsumePayload, Tip;
  }

  lemma {:induction false} ConsumedEnvelopesConsistent(cfg: Config, reg: Registry, s: Slice, eid: Id, audience: string,
                                                       actorId: string, key: string, at: int)
    requires EnvelopesConsistent(cfg, reg, s) && |s.envelopes| <= 1 && MayConsume(s, eid, audience, at)
    ensures EnvelopesConsistent(cfg, reg, ConsumedSlice(s, eid, audience, actorId, key, at))
  {
    OneEnvelope(s, eid);
    OneUnconsumedYet(cfg, reg, s, eid);
    ConsumedParts(s, eid, audience, actorId, key, at);
    hide CanAppend, Select, EnvelopesConsistent, EnvelopeValid, ConsumePayload, ConsumedSlice;
    var env := s.envelopes[eid];
    var s' := ConsumedSlice(s, eid, audience, actorId, key, at);
    ConsumedEnvelopeValid(cfg, reg, s.intent.id, s, Last(s'.events), eid, env, actorId, key, at);
    OneEnvelopeConsistent(cfg, reg, s, s', Last(s'.events), eid, ConsumedEnvelope(env, actorId, key, at));
  }

  lemma {:induction false} ConsumedBinds(cfg: Config, s: Slice, eid: Id, audience: string, actorId: string, key: string,
                                         at: int)
    requires EnvelopesBind(cfg, s) && MayConsume(s, eid, audience, at)
    ensures EnvelopesBind(cfg, ConsumedSlice(s, eid, audience, actorId, key, at))
  {
    OneEnvelope(s, eid);
    assert ConsumedSlice(s, eid, audience, actorId, key, at).envelopes
        == map[eid := ConsumedEnvelope(s.envelopes[eid], actorId, key, at)];
  }

  lemma {:induction false} EnvelopesAuthorized(cfg: Config, s: Slice, eid: Id)
    requires EnvelopesBind(cfg, s) && eid in s.envelopes
    ensures |s.envelopes| <= 1 && s.intent.status == AuthorizedNoDispatch
  {
  }

  lemma {:induction false} ConsumedQuietly(s: Slice, eid: Id, audience: string, actorId: string, key: string, at: int)
    requires MayConsume(s, eid, audience, at)
    ensures var s' := ConsumedSlice(s, eid, audience, actorId, key, at);
      s'.events != [] && Quietly(s, s', Last(s'.events)) && !IsReview(Last(s'.events).body.eventType)
  {
    var s' := ConsumedSlice(s, eid, audience, actorId, key, at);
    assert s'.events[..|s.events|] == s.events;
  }

  lemma {:induction false} ConsumeKeeps(cfg: Config, reg: Registry, id: Id, s: Slice, eid: Id, audience: string,
                                        actorId: string, key: string, at: int)
    requires SliceInv(cfg, reg, id, s) && MayConsume(s, eid, audience, at)
    ensures SliceInv(cfg, reg, id, ConsumedSlice(s, eid, audience, actorId, key, at))
  {
    InvariantParts(cfg, reg, id, s);
    assert |s.envelopes| <= 1 && s.intent.status == AuthorizedNoDispatch by { EnvelopesAuthorized(cfg, s, eid); }
    hide Green, Lifecycle, RowConsistent, IntentHashValid, ReceiptsValid, ApprovalsConsistent, EnvelopesConsistent,
         EnvelopesBind, Phase;
    ConsumedQuietly(s, eid, audience, actorId, key, at);
    hide ConsumedSlice, Quietly, MayConsume;
    var s' := ConsumedSlice(s, eid, audience, actorId, key, at);
    ConsumedEnvelopesConsistent(cfg, reg, s, eid, audience, actorId, key, at);
    QuietGreen(cfg, reg, s, s', Last(s'.events));
    ConsumedBinds(cfg, s, eid, audience, actorId, key, at);
    QuietLifecycle(cfg, id, s, s', Last(s'.events));
  }

  // ----- the registry grows -----

  ghost predicate RegistryGrows(reg: Registry, reg': Registry) {
    forall k :: k in reg.rows ==> k in reg'.rows && reg'.rows[k] == reg.rows[k]
  }

  lemma {:induction false} EnvelopeValidGrows(cfg: Config, reg: Registry, reg': Registry, id: Id,
                                              events: seq<AuditEvent>, eid: Id, env: Envelope)
    requires EnvelopeValid(cfg, reg, id, events, eid, env) && RegistryValid(cfg, reg') && RegistryGrows(reg, reg')
    ensures EnvelopeValid(cfg, reg', id, events, eid, env)
  {
    assert VerifiedClaims(cfg, reg', env.keyId, env.compact) == VerifiedClaims(cfg, reg, env.keyId, env.compact);
  }

  lemma {:induction false} RegistryKeeps(cfg: Config, reg: Registry, reg': Registry, id: Id, s: Slice)
    requires SliceInv(cfg, reg, id, s) && RegistryValid(cfg, reg') && RegistryGrows(reg, reg')
    ensures SliceInv(cfg, reg', id, s)
  {
    forall e | e in s.envelopes ensures EnvelopeValid(cfg, reg', s.intent.id, s.events, e, s.envelopes[e]) {
      EnvelopeValidGrows(cfg, reg, reg', s.intent.id, s.events, e, s.envelopes[e]);
    }
    assert EnvelopesConsistent(cfg, reg', s);
  }
}
