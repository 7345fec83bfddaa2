// What the signed document of an envelope says: each member in its place, and claims that can be
// told back from it. This is why the ledger may treat a signed document as the claims themselves.
module EnvelopeMeaning {
  import opened Json
  import opened EnvelopeDocument
  import E = Evidence
  import I = Integrity

  // Different texts, words, digests and times are spelled differently.
  ghost predicate Faithful(sp: Spelling) {
    && Spells(sp)
    && (forall a, b :: sp.text(a) == sp.text(b) ==> a == b)
    && (forall a, b :: sp.word(a) == sp.word(b) ==> a == b)
    && (forall a, b :: sp.digest(a) == sp.digest(b) ==> a == b)
    && (forall a, b :: sp.time(a) == sp.time(b) ==> a == b)
  }

  // ----- reading members -----

  // A member of a document; Undefined if it has none of that name.
  function Of(sp: Spelling, v: Js, n: Name): Js { if v.Obj? then Get(v.members, sp.name(n)) else Undefined }

  lemma {:induction false} MemberFound(sp: Spelling)
    requires Spells(sp)
    ensures forall n, v, rest, m {:trigger Get(With(sp, n, v, rest), sp.name(m))} ::
      Get(With(sp, n, v, rest), sp.name(m)) == if m == n then v else Get(rest, sp.name(m))
  {
    forall n, v, rest, m
      ensures Get(With(sp, n, v, rest), sp.name(m)) == if m == n then v else Get(rest, sp.name(m))
    {
      assert ([Entry(sp.name(n), v)] + rest)[1..] == rest;
    }
  }

  lemma {:induction false} DigestTells(sp: Spelling, d: E.Digest)
    requires Spells(sp)
    ensures Of(sp, DigestDoc(sp, d), Alg) == Str(sp.word(Sha256))
    ensures Of(sp, DigestDoc(sp, d), Value) == Str(sp.digest(d))
  {
    hide With, Get, Spells;
    MemberFound(sp);
  }

  lemma {:induction false} IdentityTells(sp: Spelling, c: E.Claims)
    requires Spells(sp)
    ensures var v := IdentityDoc(sp, c);
      && Of(sp, v, AuthenticationMethod) == Str(sp.word(if c.oidc then Oidc else LocalDemoHeaders))
      && Of(sp, v, CryptographicallyVerified) == Bool(c.verified)
      && Of(sp, v, TrustDomainId) == Str(sp.text(c.trustDomain))
  {
    hide With, Get, Spells;
    MemberFound(sp);
  }

  lemma {:induction false} PolicyTells(sp: Spelling, p: E.PolicySnapshot)
    requires Spells(sp)
    ensures var v := PolicyDoc(sp, p);
      && Of(sp, v, Allowed) == Bool(p.allowed)
      && Of(sp, v, Reasons) == Arr(ReasonDocs(sp, if p.reasons.Listed? then p.reasons.reasons else []))
      && Of(sp, v, RulesVersion) == Str(sp.text(p.rulesVersion))
      && Of(sp, v, ConfigDigest) == Str(sp.digest(p.configDigest))
      && Of(sp, v, RequiredApprovals) == Num(p.requiredApprovals)
  {
    hide With, Get, Spells, ReasonDocs;
    MemberFound(sp);
  }

  lemma {:induction false} SnapshotTells(sp: Spelling, s: E.IntentPayload)
    requires Spells(sp)
    ensures var v := SnapshotDoc(sp, s);
      && Of(sp, v, Version) == Str(sp.word(IntentV3))
      && Of(sp, v, Id) == Str(sp.text(s.id)) && Of(sp, v, TenantId) == Str(sp.text(s.tenantId))
      && Of(sp, v, IdempotencyKey) == Str(sp.text(s.idempotencyKey))
      && Of(sp, v, OnBehalfOf) == (if s.onBehalfOf.None? then Null else Str(sp.text(s.onBehalfOf.value)))
  {
    hide With, Get, Spells, TermMembers, Decimal;
    MemberFound(sp);
  }

  lemma {:induction false} RequesterTells(sp: Spelling, s: E.IntentPayload)
    requires Spells(sp)
    ensures var v := SnapshotDoc(sp, s);
      && Of(sp, Of(sp, v, RequestedBy), Type) == Str(sp.word(AgentType))
      && Of(sp, Of(sp, v, RequestedBy), Id) == Str(sp.text(s.agentId))
  {
    hide With, Get, Spells, TermMembers, Decimal;
    MemberFound(sp);
  }

  lemma {:induction false} AmountTells(sp: Spelling, s: E.IntentPayload)
    requires Spells(sp)
    ensures var v := SnapshotDoc(sp, s);
      && Of(sp, Of(sp, v, Amount), Currency) == Str(sp.word(Inr))
      && Of(sp, Of(sp, v, Amount), Minor) == Str(Decimal(s.amountMinor))
  {
    hide With, Get, Spells, TermMembers, Decimal;
    MemberFound(sp);
  }

  lemma {:induction false} TermsTell(sp: Spelling, s: E.IntentPayload)
    requires Spells(sp)
    ensures var v := TermMembers(sp, s);
      && Get(v, sp.name(PayeeReference)) == Str(sp.text(s.payeeReference))
      && Get(v, sp.name(Purpose)) == Str(sp.text(s.purpose))
      && Get(v, sp.name(InitialStatus)) == Str(sp.word(AwaitingApproval))
      && Get(v, sp.name(Policy)) == PolicyDoc(sp, s.policy)
      && Get(v, sp.name(CreatedAt)) == Str(sp.time(s.createdAt))
      && Get(v, sp.name(ExpiresAt)) == Str(sp.time(s.expiresAt))
  {
    hide With, Get, Spells, PolicyDoc;
    MemberFound(sp);
  }

  // A term of the snapshot is where the terms have it.
  lemma {:induction false} TermPassed(sp: Spelling, s: E.IntentPayload, n: Name)
    requires Spells(sp)
    requires n.PayeeReference? || n.Purpose? || n.InitialStatus? || n.Policy? || n.CreatedAt? || n.ExpiresAt?
    ensures Of(sp, SnapshotDoc(sp, s), n) == Get(TermMembers(sp, s), sp.name(n))
  {
    hide With, Get, Spells, TermMembers, Decimal;
    MemberFound(sp);
  }

  lemma {:induction false} ApprovalTells(sp: Spelling, a: E.EnvelopeApproval)
    requires Spells(sp)
    ensures var v := ApprovalDoc(sp, a);
      && Of(sp, v, Subject) == Str(sp.text(a.subject)) && Of(sp, v, Role) == Str(sp.word(RoleWord(a.actorRole)))
      && Of(sp, v, Decision) == Str(sp.word(Approve)) && Of(sp, v, IntentHash) == Str(sp.digest(a.intentHash))
      && Of(sp, v, DecidedAt) == Str(sp.time(a.decidedAt)) && Of(sp, v, RecordDigest) == Str(sp.digest(a.recordDigest))
  {
    hide With, Get, Spells;
    MemberFound(sp);
  }

  lemma {:induction false} DecisionTells(sp: Spelling, c: E.Claims)
    requires Spells(sp)
    ensures var v := DecisionDoc(sp, c);
      && Of(sp, v, State) == Str(sp.word(AuthorizedNoDispatch))
      && Of(sp, v, AuthorizationStateVersion) == Num(c.authorizationStateVersion)
      && Of(sp, v, RequiredApprovals) == Num(c.requiredApprovals)
      && Of(sp, v, FullyApprovedAt) == Str(sp.time(c.fullyApprovedAt))
      && Of(sp, v, ApprovalSetDigest) == DigestDoc(sp, c.approvalSetDigest)
      && Of(sp, v, Approvals) == Arr(ApprovalDocs(sp, c.approvals))
  {
    hide With, Get, Spells, DigestDoc, ApprovalDocs;
    MemberFound(sp);
  }

  // An envelope authorizes nothing: its capability block says so.
  lemma {:induction false} CapabilityTells(sp: Spelling)
    requires Spells(sp)
    ensures var v := CapabilityDoc(sp);
      && Of(sp, v, Kind) == Str(sp.word(EvidenceOnly))
      && Of(sp, v, PaymentDispatchAuthorized) == Bool(false) && Of(sp, v, ExecutionAuthorized) == Bool(false)
      && Of(sp, v, ProviderInstruction) == Bool(false) && Of(sp, v, MovesMoney) == Bool(false)
  {
    hide With, Get, Spells;
    MemberFound(sp);
  }

  // The members of the whole document, each where the claims say.
  lemma {:induction false} DocumentTells(sp: Spelling, c: E.Claims)
    requires Spells(sp)
    ensures var v := Document(sp, c);
      && Of(sp, v, Version) == Str(sp.word(EnvelopeV1)) && Of(sp, v, Iss) == Str(sp.text(c.issuer))
      && Of(sp, v, Sub) == Str(sp.word(UrnPrefix) + sp.text(c.subjectIntent))
      && Of(sp, v, Aud) == Str(sp.text(c.audience)) && Of(sp, v, Jti) == Str(sp.text(c.jti))
  {
    hide With, Get, Spells, EvidenceMembers;
    MemberFound(sp);
  }

  lemma {:induction false} TimesTell(sp: Spelling, c: E.Claims)
    requires Spells(sp)
    ensures var v := Document(sp, c);
      && Of(sp, v, Iat) == Num(c.iat) && Of(sp, v, Nbf) == Num(c.nbf) && Of(sp, v, Exp) == Num(c.exp)
      && Of(sp, v, IssuedAt) == Str(sp.time(c.issuedAt)) && Of(sp, v, TenantId) == Str(sp.text(c.tenantId))
  {
    hide With, Get, Spells, EvidenceMembers;
    MemberFound(sp);
  }

  lemma {:induction false} EvidencePassed(sp: Spelling, c: E.Claims, n: Name)
    requires Spells(sp)
    requires n !in {Version, Iss, Sub, Aud, Jti, Iat, Nbf, Exp, IssuedAt, TenantId}
    ensures Of(sp, Document(sp, c), n) == Get(EvidenceMembers(sp, c), sp.name(n))
  {
    hide With, Get, Spells, EvidenceMembers;
    MemberFound(sp);
  }

  // Its evidence: identity, intent, policy and decision, replay protection, log and capability.
  lemma {:induction false} EvidenceTells(sp: Spelling, c: E.Claims)
    requires Spells(sp)
    ensures var v := EvidenceMembers(sp, c);
      && Get(v, sp.name(IdentityAssurance)) == IdentityDoc(sp, c)
      && Get(v, sp.name(Intent)) == IntentDoc(sp, c)
      && Get(v, sp.name(PolicyDigest)) == DigestDoc(sp, c.policyDigest)
      && Get(v, sp.name(Decision)) == DecisionDoc(sp, c) && Get(v, sp.name(Replay)) == ReplayDoc(sp, c)
      && Get(v, sp.name(SourceAudit)) == AuditDoc(sp, c)
      && Get(v, sp.name(Capability)) == CapabilityDoc(sp) && Get(v, sp.name(Notice)) == Str(sp.word(NoticeText))
  {
    hide With, Get, Spells, IntentDoc, IdentityDoc, DigestDoc, DecisionDoc, ReplayDoc, AuditDoc, CapabilityDoc;
    MemberFound(sp);
  }

  lemma {:induction false} PartsTell(sp: Spelling, c: E.Claims)
    requires Spells(sp)
    ensures Of(sp, IntentDoc(sp, c), Snapshot) == SnapshotDoc(sp, c.snapshot)
    ensures Of(sp, IntentDoc(sp, c), Digest) == DigestDoc(sp, c.intentDigest)
    ensures Of(sp, ReplayDoc(sp, c), Nonce) == Str(sp.text(c.nonce)) && Of(sp, ReplayDoc(sp, c), UseLimit) == Num(1)
    ensures Of(sp, AuditDoc(sp, c), EventCount) == Num(c.eventCount)
    ensures Of(sp, AuditDoc(sp, c), ChainTip) == Str(sp.digest(c.chainTip))
  {
    hide With, Get, Spells, SnapshotDoc, DigestDoc;
    MemberFound(sp);
  }

  // ----- telling the claims back -----

  lemma {:induction false} DecimalPins(a: int, b: int)
    requires Decimal(a) == Decimal(b)
    ensures a == b
  {
    hide Decimal, ReadNumber;
    DecimalReads(a, []);
    DecimalReads(b, []);
  }

  lemma {:induction false} ReasonsPin(sp: Spelling, a: seq<E.Reason>, b: seq<E.Reason>)
    requires Faithful(sp) && ReasonDocs(sp, a) == ReasonDocs(sp, b)
    ensures a == b
  {
    if a != [] && b != [] {
      var x, y := ReasonDocs(sp, a), ReasonDocs(sp, b);
      assert x[0] == y[0] && x[1..] == y[1..];
      assert x[1..] == ReasonDocs(sp, a[1..]) && y[1..] == ReasonDocs(sp, b[1..]);
      ReasonsPin(sp, a[1..], b[1..]);
      assert a == [a[0]] + a[1..] && b == [b[0]] + b[1..];
    }
  }

  lemma {:induction false} DigestsPin(sp: Spelling, a: E.Digest, b: E.Digest)
    requires Faithful(sp) && DigestDoc(sp, a) == DigestDoc(sp, b)
    ensures a == b
  {
    hide DigestDoc;
    DigestTells(sp, a);
    DigestTells(sp, b);
  }

  lemma {:induction false} PoliciesPin(sp: Spelling, a: E.PolicySnapshot, b: E.PolicySnapshot)
    requires Faithful(sp) && a.reasons.Listed? && b.reasons.Listed? && PolicyDoc(sp, a) == PolicyDoc(sp, b)
    ensures a == b
  {
    hide PolicyDoc, Of, ReasonDocs;
    PolicyTells(sp, a);
    PolicyTells(sp, b);
    ReasonsPin(sp, a.reasons.reasons, b.reasons.reasons);
  }

  lemma {:induction false} SameTerms(sp: Spelling, a: E.IntentPayload, b: E.IntentPayload)
    requires Spells(sp) && SnapshotDoc(sp, a) == SnapshotDoc(sp, b)
    ensures forall n :: n in {PayeeReference, Purpose, InitialStatus, Policy, CreatedAt, ExpiresAt} ==>
      Get(TermMembers(sp, a), sp.name(n)) == Get(TermMembers(sp, b), sp.name(n))
  {
    hide SnapshotDoc, Of, TermMembers, Get, Spells;
    forall n | n in {PayeeReference, Purpose, InitialStatus, Policy, CreatedAt, ExpiresAt}
      ensures Get(TermMembers(sp, a), sp.name(n)) == Get(TermMembers(sp, b), sp.name(n))
    {
      TermPassed(sp, a, n);
      TermPassed(sp, b, n);
    }
  }

  lemma {:induction false} TermsPin(sp: Spelling, a: E.IntentPayload, b: E.IntentPayload)
    requires Faithful(sp) && SnapshotDoc(sp, a) == SnapshotDoc(sp, b)
    requires a.policy.reasons.Listed? && b.policy.reasons.Listed?
    ensures a.payeeReference == b.payeeReference && a.purpose == b.purpose && a.policy == b.policy
    ensures a.createdAt == b.createdAt && a.expiresAt == b.expiresAt
  {
    hide SnapshotDoc, Of, PolicyDoc, TermMembers, Get, Spells;
    SameTerms(sp, a, b);
    TermsTell(sp, a);
    TermsTell(sp, b);
    PoliciesPin(sp, a.policy, b.policy);
  }

  lemma {:induction false} SnapshotsPin(sp: Spelling, a: E.IntentPayload, b: E.IntentPayload)
    requires Faithful(sp) && SnapshotDoc(sp, a) == SnapshotDoc(sp, b) && a.initialStatus == b.initialStatus
    requires a.policy.reasons.Listed? && b.policy.reasons.Listed?
    ensures a == b
  {
    hide SnapshotDoc, Of, Decimal, Get, Spells;
    TermsPin(sp, a, b);
    SnapshotTells(sp, a);
    SnapshotTells(sp, b);
    RequesterTells(sp, a);
    RequesterTells(sp, b);
    AmountTells(sp, a);
    AmountTells(sp, b);
    DecimalPins(a.amountMinor, b.amountMinor);
  }

  lemma {:induction false} ApprovalPins(sp: Spelling, a: E.EnvelopeApproval, b: E.EnvelopeApproval)
    requires Faithful(sp) && ApprovalDoc(sp, a) == ApprovalDoc(sp, b) && a.decision == b.decision
    ensures a == b
  {
    hide ApprovalDoc, Of;
    ApprovalTells(sp, a);
    ApprovalTells(sp, b);
  }

  lemma {:induction false} ApprovalsPin(sp: Spelling, a: seq<E.EnvelopeApproval>, b: seq<E.EnvelopeApproval>)
    requires Faithful(sp) && ApprovalDocs(sp, a) == ApprovalDocs(sp, b)
    requires forall x :: x in a || x in b ==> x.decision == E.Approve
    ensures a == b
  {
    hide ApprovalDoc, Faithful;
    if a != [] && b != [] {
      var x, y := ApprovalDocs(sp, a), ApprovalDocs(sp, b);
      assert x[0] == y[0] && x[1..] == y[1..];
      assert x[1..] == ApprovalDocs(sp, a[1..]) && y[1..] == ApprovalDocs(sp, b[1..]);
      ApprovalPins(sp, a[0], b[0]);
      ApprovalsPin(sp, a[1..], b[1..]);
      assert a == [a[0]] + a[1..] && b == [b[0]] + b[1..];
    }
  }

  lemma {:induction false} PrefixPins(a: Text, x: Text, y: Text)
    requires a + x == a + y
    ensures x == y
  {
    assert (a + x)[|a|..] == x && (a + y)[|a|..] == y;
  }

  // What the strict check fixes of the members that are written as constants.
  lemma {:induction false} StrictFixes(c: E.Claims)
    requires I.StrictClaims(c)
    ensures c.state == E.AuthorizedNoDispatch && c.snapshot.initialStatus == E.AwaitingApproval
    ensures c.snapshot.policy.reasons.Listed? && forall x :: x in c.approvals ==> x.decision == E.Approve
  {
    forall x | x in c.approvals ensures x.decision == E.Approve {
      var i :| 0 <= i < |c.approvals| && c.approvals[i] == x;
      assert I.EnvelopeApprovalValid(c, c.approvals[i]);
    }
  }

  // Equal documents have equal evidence.
  lemma {:induction false} EvidencePins(sp: Spelling, a: E.Claims, b: E.Claims)
    requires Faithful(sp) && Document(sp, a) == Document(sp, b)
    ensures IdentityDoc(sp, a) == IdentityDoc(sp, b) && DecisionDoc(sp, a) == DecisionDoc(sp, b)
    ensures SnapshotDoc(sp, a.snapshot) == SnapshotDoc(sp, b.snapshot)
    ensures DigestDoc(sp, a.intentDigest) == DigestDoc(sp, b.intentDigest)
    ensures DigestDoc(sp, a.policyDigest) == DigestDoc(sp, b.policyDigest)
    ensures a.nonce == b.nonce && a.eventCount == b.eventCount && a.chainTip == b.chainTip
  {
    hide Document, Of, Get, EvidenceMembers, IdentityDoc, IntentDoc, SnapshotDoc, DigestDoc, DecisionDoc, ReplayDoc,
         AuditDoc, CapabilityDoc, Spells;
    EvidenceTells(sp, a);
    EvidenceTells(sp, b);
    forall n | n in {IdentityAssurance, Intent, PolicyDigest, Decision, Replay, SourceAudit, Capability, Notice}
      ensures Get(EvidenceMembers(sp, a), sp.name(n)) == Get(EvidenceMembers(sp, b), sp.name(n))
    {
      EvidencePassed(sp, a, n);
      EvidencePassed(sp, b, n);
    }
    PartsTell(sp, a);
    PartsTell(sp, b);
  }

  // Strict claims that make the same document are the same claims.
  lemma {:induction false} DocumentPinsClaims(sp: Spelling, a: E.Claims, b: E.Claims)
    requires Faithful(sp) && I.StrictClaims(a) && I.StrictClaims(b) && Document(sp, a) == Document(sp, b)
    ensures a == b
  {
    hide Document, Of, IdentityDoc, SnapshotDoc, DigestDoc, DecisionDoc, ApprovalDocs, I.StrictClaims, Spells;
    StrictFixes(a);
    StrictFixes(b);
    DocumentTells(sp, a);
    DocumentTells(sp, b);
    TimesTell(sp, a);
    TimesTell(sp, b);
    EvidencePins(sp, a, b);
    IdentityTells(sp, a);
    IdentityTells(sp, b);
    DecisionTells(sp, a);
    DecisionTells(sp, b);
    PrefixPins(sp.word(UrnPrefix), sp.text(a.subjectIntent), sp.text(b.subjectIntent));
    SnapshotsPin(sp, a.snapshot, b.snapshot);
    ApprovalsPin(sp, a.approvals, b.approvals);
    DigestsPin(sp, a.intentDigest, b.intentDigest);
    DigestsPin(sp, a.policyDigest, b.policyDigest);
    DigestsPin(sp, a.approvalSetDigest, b.approvalSetDigest);
  }
}
