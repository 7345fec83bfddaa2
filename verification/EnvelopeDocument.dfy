// The document an evidence envelope signs, as JSON, and why its compact string is always one
// the verifier reads: every text in it has a limit of its own. The fixed names and words of
// the format enter by their lengths, and by no two names being the same.
module EnvelopeDocument {
  import opened Basics
  import opened Json
  import opened CanonicalJson
  import opened JwsSize
  import E = Evidence
  import J = JwsCodec

  // Member names: authentication_method, cryptographically_verified and so on.
  datatype Name =
    | Version | Iss | Sub | Aud | Jti | Iat | Nbf | Exp | IssuedAt | TenantId | IdentityAssurance | Intent
    | PolicyDigest | Decision | Replay | SourceAudit | Capability | Notice
    | AuthenticationMethod | CryptographicallyVerified | TrustDomainId
    | Snapshot | Digest | Alg | Value | Id | Type
    | IdempotencyKey | RequestedBy | OnBehalfOf | Amount | PayeeReference | Purpose | InitialStatus | Policy
    | CreatedAt | ExpiresAt | Currency | Minor
    | Allowed | Reasons | RulesVersion | ConfigDigest | RequiredApprovals
    | State | AuthorizationStateVersion | FullyApprovedAt | ApprovalSetDigest | Approvals
    | Subject | Role | IntentHash | DecidedAt | RecordDigest
    | Nonce | UseLimit | EventCount | ChainTip
    | Kind | PaymentDispatchAuthorized | ExecutionAuthorized | ProviderInstruction | MovesMoney

  // Fixed values; UrnPrefix stands before the intent id in sub.
  datatype Word =
    | EnvelopeV1 | IntentV3 | UrnPrefix | Sha256 | Oidc | LocalDemoHeaders | AgentType | Inr
    | AwaitingApproval | AuthorizedNoDispatch | Approve | EvidenceOnly | NoticeText
    | RoleWord(role: E.Role) | ReasonWord(reason: E.Reason)

  // How stored values are spelled: strings in code units, digests as 64 hexadecimal digits,
  // times as toISOString writes them.
  datatype Spelling = Spelling(
    name: Name -> Text,
    word: Word -> Text,
    text: string -> Text,
    digest: E.Digest -> Text,
    time: int -> Text)

  // payment_dispatch_authorized has 27 letters, parimit-authorization-envelope-v1 has 33.
  ghost predicate Spells(sp: Spelling) {
    && (forall n :: |sp.name(n)| <= 27)
    && (forall m, n :: sp.name(m) == sp.name(n) ==> m == n)
    && (forall w: Word :: w.NoticeText? ==> |sp.word(w)| <= 170)
    && (forall w: Word :: !w.NoticeText? && !(w.ReasonWord? && w.reason.OtherReason?) ==> |sp.word(w)| <= 33)
    && (forall s :: |sp.text(s)| == |s|)
    && (forall d :: E.IsSha256Hex(d) ==> |sp.digest(d)| == 64)
    && (forall t :: |sp.time(t)| <= 27)
  }

  // ----- the document -----

  // A record, member by member.
  function With(sp: Spelling, name: Name, value: Js, rest: seq<Entry>): seq<Entry> {
    [Entry(sp.name(name), value)] + rest
  }

  function Record(members: seq<Entry>): Js { Obj(members) }

  function DigestDoc(sp: Spelling, d: E.Digest): Js {
    Record(With(sp, Alg, Str(sp.word(Sha256)), With(sp, Value, Str(sp.digest(d)), [])))
  }

  function IdentityDoc(sp: Spelling, c: E.Claims): Js {
    Record(With(sp, AuthenticationMethod, Str(sp.word(if c.oidc then Oidc else LocalDemoHeaders)),
           With(sp, CryptographicallyVerified, Bool(c.verified),
           With(sp, TrustDomainId, Str(sp.text(c.trustDomain)), []))))
  }

  function ReasonDocs(sp: Spelling, reasons: seq<E.Reason>): seq<Js> {
    if reasons == [] then [] else [Str(sp.word(ReasonWord(reasons[0])))] + ReasonDocs(sp, reasons[1..])
  }

  function PolicyDoc(sp: Spelling, p: E.PolicySnapshot): Js {
    Record(With(sp, Allowed, Bool(p.allowed),
           With(sp, Reasons, Arr(ReasonDocs(sp, if p.reasons.Listed? then p.reasons.reasons else [])),
           With(sp, RulesVersion, Str(sp.text(p.rulesVersion)),
           With(sp, ConfigDigest, Str(sp.digest(p.configDigest)),
           With(sp, RequiredApprovals, Num(p.requiredApprovals), []))))))
  }

  function TermMembers(sp: Spelling, s: E.IntentPayload): seq<Entry> {
    With(sp, PayeeReference, Str(sp.text(s.payeeReference)),
    With(sp, Purpose, Str(sp.text(s.purpose)),
    With(sp, InitialStatus, Str(sp.word(AwaitingApproval)),
    With(sp, Policy, PolicyDoc(sp, s.policy),
    With(sp, CreatedAt, Str(sp.time(s.createdAt)),
    With(sp, ExpiresAt, Str(sp.time(s.expiresAt)), []))))))
  }

  function SnapshotDoc(sp: Spelling, s: E.IntentPayload): Js {
    var requestedBy := Record(With(sp, Type, Str(sp.word(AgentType)), With(sp, Id, Str(sp.text(s.agentId)), [])));
    var amount := Record(With(sp, Currency, Str(sp.word(Inr)), With(sp, Minor, Str(Decimal(s.amountMinor)), [])));
    Record(With(sp, Version, Str(sp.word(IntentV3)),
           With(sp, Id, Str(sp.text(s.id)),
           With(sp, TenantId, Str(sp.text(s.tenantId)),
           With(sp, IdempotencyKey, Str(sp.text(s.idempotencyKey)),
           With(sp, RequestedBy, requestedBy,
           With(sp, OnBehalfOf, if s.onBehalfOf.None? then Null else Str(sp.text(s.onBehalfOf.value)),
           With(sp, Amount, amount, TermMembers(sp, s)))))))))
  }

  function ApprovalDoc(sp: Spelling, a: E.EnvelopeApproval): Js {
    Record(With(sp, Subject, Str(sp.text(a.subject)),
           With(sp, Role, Str(sp.word(RoleWord(a.actorRole))),
           With(sp, Decision, Str(sp.word(Approve)),
           With(sp, IntentHash, Str(sp.digest(a.intentHash)),
           With(sp, DecidedAt, Str(sp.time(a.decidedAt)),
           With(sp, RecordDigest, Str(sp.digest(a.recordDigest)), [])))))))
  }

  function ApprovalDocs(sp: Spelling, approvals: seq<E.EnvelopeApproval>): seq<Js> {
    if approvals == [] then [] else [ApprovalDoc(sp, approvals[0])] + ApprovalDocs(sp, approvals[1..])
  }

  function DecisionDoc(sp: Spelling, c: E.Claims): Js {
    Record(With(sp, State, Str(sp.word(AuthorizedNoDispatch)),
           With(sp, AuthorizationStateVersion, Num(c.authorizationStateVersion),
           With(sp, RequiredApprovals, Num(c.requiredApprovals),
           With(sp, FullyApprovedAt, Str(sp.time(c.fullyApprovedAt)),
           With(sp, ApprovalSetDigest, DigestDoc(sp, c.approvalSetDigest),
           With(sp, Approvals, Arr(ApprovalDocs(sp, c.approvals)), [])))))))
  }

  function IntentDoc(sp: Spelling, c: E.Claims): Js {
    Record(With(sp, Snapshot, SnapshotDoc(sp, c.snapshot), With(sp, Digest, DigestDoc(sp, c.intentDigest), [])))
  }

  function ReplayDoc(sp: Spelling, c: E.Claims): Js {
    Record(With(sp, Nonce, Str(sp.text(c.nonce)), With(sp, UseLimit, Num(1), [])))
  }

  function AuditDoc(sp: Spelling, c: E.Claims): Js {
    Record(With(sp, EventCount, Num(c.eventCount), With(sp, ChainTip, Str(sp.digest(c.chainTip)), [])))
  }

  function CapabilityDoc(sp: Spelling): Js {
    Record(With(sp, Kind, Str(sp.word(EvidenceOnly)),
           With(sp, PaymentDispatchAuthorized, Bool(false),
           With(sp, ExecutionAuthorized, Bool(false),
           With(sp, ProviderInstruction, Bool(false),
           With(sp, MovesMoney, Bool(false), []))))))
  }

  function EvidenceMembers(sp: Spelling, c: E.Claims): seq<Entry> {
    With(sp, IdentityAssurance, IdentityDoc(sp, c),
    With(sp, Intent, IntentDoc(sp, c),
    With(sp, PolicyDigest, DigestDoc(sp, c.policyDigest),
    With(sp, Decision, DecisionDoc(sp, c),
    With(sp, Replay, ReplayDoc(sp, c),
    With(sp, SourceAudit, AuditDoc(sp, c),
    With(sp, Capability, CapabilityDoc(sp),
    With(sp, Notice, Str(sp.word(NoticeText)), []))))))))
  }

  // The claims issueAuthorizationEnvelope builds and signs.
  function Document(sp: Spelling, c: E.Claims): Js {
    Record(With(sp, Version, Str(sp.word(EnvelopeV1)),
           With(sp, Iss, Str(sp.text(c.issuer)),
           With(sp, Sub, Str(sp.word(UrnPrefix) + sp.text(c.subjectIntent)),
           With(sp, Aud, Str(sp.text(c.audience)),
           With(sp, Jti, Str(sp.text(c.jti)),
           With(sp, Iat, Num(c.iat),
           With(sp, Nbf, Num(c.nbf),
           With(sp, Exp, Num(c.exp),
           With(sp, IssuedAt, Str(sp.time(c.issuedAt)),
           With(sp, TenantId, Str(sp.text(c.tenantId)), EvidenceMembers(sp, c))))))))))))
  }

  // ----- it is JSON the codec writes -----

  // Nothing unsupported, and one member of each name.
  ghost predicate Wrought(v: Js) { Serializable(v) && WellKeyed(v) && !v.Undefined? }

  ghost predicate Orderly(members: seq<Entry>) {
    && (forall i :: 0 <= i < |members| ==> Wrought(members[i].value))
    && NamesDistinct(members)
  }

  ghost predicate Fresh(sp: Spelling, name: Name, members: seq<Entry>) {
    forall i :: 0 <= i < |members| ==> members[i].name != sp.name(name)
  }

  lemma {:induction false} WithOrderly(sp: Spelling, name: Name, value: Js, rest: seq<Entry>)
    requires Wrought(value) && Orderly(rest) && Fresh(sp, name, rest)
    ensures Orderly(With(sp, name, value, rest))
  {
    hide Wrought;
    var m := With(sp, name, value, rest);
    assert forall i :: 0 < i < |m| ==> m[i] == rest[i - 1];
  }

  lemma {:induction false} WithFresh(sp: Spelling, name: Name, value: Js, rest: seq<Entry>, other: Name)
    ensures Fresh(sp, other, With(sp, name, value, rest)) <==> sp.name(other) != sp.name(name) && Fresh(sp, other, rest)
  {
    hide Wrought;
    var m := With(sp, name, value, rest);
    assert forall i :: 0 <= i < |rest| ==> m[i + 1] == rest[i];
    assert m[0].name == sp.name(name);
  }

  // Different names, and values that are themselves wrought, make a wrought record.
  lemma {:induction false} RecordsWrought(sp: Spelling)
    requires Spells(sp)
    ensures Orderly([]) && forall name :: Fresh(sp, name, [])
    ensures forall name, value, rest {:trigger With(sp, name, value, rest)} ::
      Wrought(value) && Orderly(rest) && Fresh(sp, name, rest) ==> Orderly(With(sp, name, value, rest))
    ensures forall name, value, rest, other {:trigger Fresh(sp, other, With(sp, name, value, rest))} ::
      Fresh(sp, other, With(sp, name, value, rest)) <==> other != name && Fresh(sp, other, rest)
    ensures forall members: seq<Entry> {:trigger Record(members)} :: Orderly(members) ==> Wrought(Record(members))
    ensures Wrought(Null) && forall b :: Wrought(Bool(b))
    ensures forall n :: Wrought(Num(n))
    ensures forall text :: Wrought(Str(text))
  {
    forall name, value, rest | Wrought(value) && Orderly(rest) && Fresh(sp, name, rest)
      ensures Orderly(With(sp, name, value, rest))
    {
      WithOrderly(sp, name, value, rest);
    }
    forall name, value, rest, other
      ensures Fresh(sp, other, With(sp, name, value, rest)) <==> other != name && Fresh(sp, other, rest)
    {
      hide Fresh, With;
      WithFresh(sp, name, value, rest, other);
    }
  }

  lemma {:induction false} ListWrought(items: seq<Js>)
    requires forall i :: 0 <= i < |items| ==> Wrought(items[i])
    ensures Wrought(Arr(items))
  {
  }

  lemma {:induction false} ReasonListWrought(sp: Spelling, reasons: seq<E.Reason>)
    ensures Wrought(Arr(ReasonDocs(sp, reasons)))
  {
    hide Wrought, ReasonDocs;
    ReasonsWrought(sp, reasons);
    ListWrought(ReasonDocs(sp, reasons));
  }

  lemma {:induction false} ReasonsWrought(sp: Spelling, reasons: seq<E.Reason>)
    ensures forall i :: 0 <= i < |ReasonDocs(sp, reasons)| ==> Wrought(ReasonDocs(sp, reasons)[i])
  {
    if reasons != [] { ReasonsWrought(sp, reasons[1..]); }
  }

  lemma {:induction false} DigestWrought(sp: Spelling, d: E.Digest)
    requires Spells(sp)
    ensures Wrought(DigestDoc(sp, d))
  {
    hide Wrought, With, Record, Fresh, Orderly, Spells;
    RecordsWrought(sp);
  }

  lemma {:induction false} IdentityWrought(sp: Spelling, c: E.Claims)
    requires Spells(sp)
    ensures Wrought(IdentityDoc(sp, c))
  {
    hide Wrought, With, Record, Fresh, Orderly, Spells;
    RecordsWrought(sp);
  }

  lemma {:induction false} ApprovalWrought(sp: Spelling, a: E.EnvelopeApproval)
    requires Spells(sp)
    ensures Wrought(ApprovalDoc(sp, a))
  {
    hide Wrought, With, Record, Fresh, Orderly, Spells;
    RecordsWrought(sp);
  }

  lemma {:induction false} SmallPartsWrought(sp: Spelling, c: E.Claims)
    requires Spells(sp)
    ensures Wrought(ReplayDoc(sp, c)) && Wrought(AuditDoc(sp, c)) && Wrought(CapabilityDoc(sp))
  {
    hide Wrought, With, Record, Fresh, Orderly, Spells;
    RecordsWrought(sp);
  }

  lemma {:induction false} PolicyWrought(sp: Spelling, p: E.PolicySnapshot)
    requires Spells(sp)
    ensures Wrought(PolicyDoc(sp, p))
  {
    hide Wrought, With, Record, Fresh, Orderly, Spells, ReasonDocs;
    RecordsWrought(sp);
    var reasons := if p.reasons.Listed? then p.reasons.reasons else [];
    ReasonListWrought(sp, reasons);
  }

  lemma {:induction false} TermsOrderly(sp: Spelling, s: E.IntentPayload)
    requires Spells(sp)
    ensures Orderly(TermMembers(sp, s))
    ensures forall n: Name :: IsParty(n) ==> Fresh(sp, n, TermMembers(sp, s))
  {
    hide Wrought, With, Record, Fresh, Orderly, Spells, PolicyDoc;
    RecordsWrought(sp);
    PolicyWrought(sp, s.policy);
  }

  predicate IsParty(n: Name) {
    n.Version? || n.Id? || n.TenantId? || n.IdempotencyKey? || n.RequestedBy? || n.OnBehalfOf? || n.Amount?
  }

  lemma {:induction false} SnapshotWrought(sp: Spelling, s: E.IntentPayload)
    requires Spells(sp)
    ensures Wrought(SnapshotDoc(sp, s))
  {
    hide Wrought, With, Record, Fresh, Orderly, Spells, TermMembers, Decimal;
    RecordsWrought(sp);
    TermsOrderly(sp, s);
  }

  lemma {:induction false} ApprovalsWrought(sp: Spelling, approvals: seq<E.EnvelopeApproval>)
    requires Spells(sp)
    ensures forall i :: 0 <= i < |ApprovalDocs(sp, approvals)| ==> Wrought(ApprovalDocs(sp, approvals)[i])
  {
    hide Wrought, Spells, ApprovalDoc;
    if approvals != [] {
      ApprovalWrought(sp, approvals[0]);
      ApprovalsWrought(sp, approvals[1..]);
    }
  }

  lemma {:induction false} DecisionWrought(sp: Spelling, c: E.Claims)
    requires Spells(sp)
    ensures Wrought(DecisionDoc(sp, c))
  {
    hide Wrought, With, Record, Fresh, Orderly, Spells, ApprovalDocs, DigestDoc;
    RecordsWrought(sp);
    DigestWrought(sp, c.approvalSetDigest);
    ApprovalsWrought(sp, c.approvals);
    ListWrought(ApprovalDocs(sp, c.approvals));
  }

  lemma {:induction false} IntentWrought(sp: Spelling, c: E.Claims)
    requires Spells(sp)
    ensures Wrought(IntentDoc(sp, c))
  {
    hide Wrought, With, Record, Fresh, Orderly, Spells, SnapshotDoc, DigestDoc;
    RecordsWrought(sp);
    SnapshotWrought(sp, c.snapshot);
    DigestWrought(sp, c.intentDigest);
  }

  predicate IsStandard(n: Name) {
    n.Version? || n.Iss? || n.Sub? || n.Aud? || n.Jti? || n.Iat? || n.Nbf? || n.Exp? || n.IssuedAt? || n.TenantId?
  }

  lemma {:induction false} EvidenceOrderly(sp: Spelling, c: E.Claims)
    requires Spells(sp)
    ensures Orderly(EvidenceMembers(sp, c))
    ensures forall n: Name :: IsStandard(n) ==> Fresh(sp, n, EvidenceMembers(sp, c))
  {
    hide Wrought, With, Record, Fresh, Orderly, Spells, IdentityDoc, IntentDoc, DigestDoc, DecisionDoc, ReplayDoc,
         AuditDoc, CapabilityDoc;
    RecordsWrought(sp);
    IdentityWrought(sp, c);
    IntentWrought(sp, c);
    DigestWrought(sp, c.policyDigest);
    DecisionWrought(sp, c);
    SmallPartsWrought(sp, c);
  }

  lemma {:induction false} DocumentWrought(sp: Spelling, c: E.Claims)
    requires Spells(sp)
    ensures Document(sp, c).Obj? && Wrought(Document(sp, c))
  {
    hide Wrought, With, Record, Fresh, Orderly, Spells, EvidenceMembers;
    RecordsWrought(sp);
    EvidenceOrderly(sp, c);
    RecordIsObject(sp, c);
  }

  lemma {:induction false} RecordIsObject(sp: Spelling, c: E.Claims)
    ensures Document(sp, c).Obj?
  {
  }

  // ----- limits on what the document holds -----

  predicate Safe(n: int) { -MAX_SAFE_INTEGER <= n <= MAX_SAFE_INTEGER }

  // Reasons the policy gives: at most one of each kind of denial and one approval rule.
  predicate ReasonsWithin(p: E.PolicySnapshot) {
    p.reasons.Listed? && |p.reasons.reasons| <= 5
    && forall i :: 0 <= i < |p.reasons.reasons| ==> !p.reasons.reasons[i].OtherReason?
  }

  predicate PolicyWithin(p: E.PolicySnapshot) {
    ReasonsWithin(p) && |p.rulesVersion| <= 128 && Safe(p.requiredApprovals) && E.IsSha256Hex(p.configDigest)
  }

  predicate SnapshotWithin(s: E.IntentPayload) {
    && |s.id| <= 36 && |s.tenantId| <= 128 && |s.idempotencyKey| <= 128 && |s.agentId| <= 128
    && (s.onBehalfOf.Some? ==> |s.onBehalfOf.value| <= 128)
    && Safe(s.amountMinor) && |s.payeeReference| <= 64 && |s.purpose| <= 500
    && PolicyWithin(s.policy)
  }

  predicate ApprovalWithin(a: E.EnvelopeApproval) {
    |a.subject| <= 128 && E.IsSha256Hex(a.intentHash) && E.IsSha256Hex(a.recordDigest)
  }

  predicate ApprovalsWithin(approvals: seq<E.EnvelopeApproval>) {
    |approvals| <= 2 && forall i :: 0 <= i < |approvals| ==> ApprovalWithin(approvals[i])
  }

  predicate TextsWithin(c: E.Claims) {
    && |c.issuer| <= 512 && |c.audience| <= 512 && |c.subjectIntent| <= 36 && |c.jti| <= 36
    && |c.tenantId| <= 128 && |c.trustDomain| <= 71 && |c.nonce| <= 43
  }

  predicate DigestsProper(c: E.Claims) {
    && E.IsSha256Hex(c.intentDigest) && E.IsSha256Hex(c.policyDigest) && E.IsSha256Hex(c.approvalSetDigest)
    && E.IsSha256Hex(c.chainTip)
  }

  // Number.isSafeInteger of every number in the claims.
  predicate NumbersSafe(c: E.Claims) {
    && Safe(c.iat) && Safe(c.nbf) && Safe(c.exp) && Safe(c.eventCount)
    && Safe(c.authorizationStateVersion) && Safe(c.requiredApprovals)
  }

  predicate Within(c: E.Claims) {
    TextsWithin(c) && DigestsProper(c) && NumbersSafe(c) && SnapshotWithin(c.snapshot) && ApprovalsWithin(c.approvals)
  }

  // ----- so it is light -----

  lemma {:induction false} DigitsShort(n: nat, k: nat)
    requires k >= 1 && n < Power(k)
    ensures |Digits(n)| <= k
  {
    if n >= 10 {
      assert n / 10 < Power(k - 1);
      DigitsShort(n / 10, k - 1);
    }
  }

  lemma {:induction false} DecimalShort(n: int)
    requires Safe(n)
    ensures |Decimal(n)| <= 17
  {
    TenToThe16();
    hide Power, Digits;
    DigitsShort(if n < 0 then -n else n, 16);
  }

  lemma {:induction false} TenToThe16()
    ensures Power(16) == 10_000_000_000_000_000
  {
    assert Power(4) == 10_000;
    assert Power(8) == 100_000_000;
    assert Power(12) == 1_000_000_000_000;
  }

  lemma {:induction false} WithWeighs(sp: Spelling, name: Name, value: Js, rest: seq<Entry>)
    requires Spells(sp)
    ensures MembersWeight(With(sp, name, value, rest)) <= 166 + Weight(value) + MembersWeight(rest)
  {
    hide Weight;
    assert With(sp, name, value, rest)[1..] == rest;
  }

  lemma {:induction false} RecordsWeigh(sp: Spelling)
    requires Spells(sp)
    ensures MembersWeight([]) == 0
    ensures forall name, value, rest {:trigger With(sp, name, value, rest)} ::
      MembersWeight(With(sp, name, value, rest)) <= 166 + Weight(value) + MembersWeight(rest)
    ensures forall members: seq<Entry> {:trigger Record(members)} ::
      Weight(Record(members)) == MembersWeight(members) + 2
    ensures Weight(Null) == 4 && forall b :: Weight(Bool(b)) == 5
    ensures forall n :: Safe(n) ==> Weight(Num(n)) <= 17
    ensures forall text :: Weight(Str(text)) == 6 * |text| + 2
  {
    forall name, value, rest
      ensures MembersWeight(With(sp, name, value, rest)) <= 166 + Weight(value) + MembersWeight(rest)
    {
      hide Spells, With, MembersWeight;
      WithWeighs(sp, name, value, rest);
    }
    forall n | Safe(n) ensures Weight(Num(n)) <= 17 { DecimalShort(n); }
  }

  lemma {:induction false} DigestWeighs(sp: Spelling, d: E.Digest)
    requires Spells(sp) && E.IsSha256Hex(d)
    ensures Weight(DigestDoc(sp, d)) <= 1000
  {
    hide Weight, MembersWeight, With, Record, Safe;
    RecordsWeigh(sp);
  }

  lemma {:induction false} IdentityWeighs(sp: Spelling, c: E.Claims)
    requires Spells(sp) && TextsWithin(c)
    ensures Weight(IdentityDoc(sp, c)) <= 1200
  {
    hide Weight, MembersWeight, With, Record, Safe;
    RecordsWeigh(sp);
  }

  lemma {:induction false} ReasonsWeigh(sp: Spelling, reasons: seq<E.Reason>)
    requires Spells(sp) && forall i :: 0 <= i < |reasons| ==> !reasons[i].OtherReason?
    ensures ItemsWeight(ReasonDocs(sp, reasons)) <= 201 * |reasons|
  {
    if reasons != [] {
      ReasonsWeigh(sp, reasons[1..]);
      var doc := Str(sp.word(ReasonWord(reasons[0])));
      assert ([doc] + ReasonDocs(sp, reasons[1..]))[1..] == ReasonDocs(sp, reasons[1..]);
      assert Weight(doc) <= 200;
    }
  }

  lemma {:induction false} ListWeighs(items: seq<Js>)
    ensures Weight(Arr(items)) == ItemsWeight(items) + 2
  {
  }

  lemma {:induction false} PolicyWeighs(sp: Spelling, p: E.PolicySnapshot)
    requires Spells(sp) && PolicyWithin(p)
    ensures Weight(PolicyDoc(sp, p)) <= 3100
  {
    hide Weight, MembersWeight, With, Record, Safe, ItemsWeight, ReasonDocs;
    RecordsWeigh(sp);
    ReasonsWeigh(sp, p.reasons.reasons);
    ListWeighs(ReasonDocs(sp, p.reasons.reasons));
  }

  lemma {:induction false} TermsWeigh(sp: Spelling, s: E.IntentPayload)
    requires Spells(sp) && SnapshotWithin(s)
    ensures MembersWeight(TermMembers(sp, s)) <= 8300
  {
    hide Weight, MembersWeight, With, Record, Safe, PolicyDoc, PolicyWithin;
    RecordsWeigh(sp);
    PolicyWeighs(sp, s.policy);
  }

  lemma {:induction false} SnapshotWeighs(sp: Spelling, s: E.IntentPayload)
    requires Spells(sp) && SnapshotWithin(s)
    ensures Weight(SnapshotDoc(sp, s)) <= 14_500
  {
    hide Weight, MembersWeight, With, Record, Safe, TermMembers, PolicyWithin, Decimal;
    RecordsWeigh(sp);
    TermsWeigh(sp, s);
    DecimalShort(s.amountMinor);
  }

  lemma {:induction false} ApprovalWeighs(sp: Spelling, a: E.EnvelopeApproval)
    requires Spells(sp) && ApprovalWithin(a)
    ensures Weight(ApprovalDoc(sp, a)) <= 3200
  {
    hide Weight, MembersWeight, With, Record, Safe;
    RecordsWeigh(sp);
  }

  lemma {:induction false} ApprovalsWeigh(sp: Spelling, approvals: seq<E.EnvelopeApproval>)
    requires Spells(sp) && forall i :: 0 <= i < |approvals| ==> ApprovalWithin(approvals[i])
    ensures ItemsWeight(ApprovalDocs(sp, approvals)) <= 3201 * |approvals|
  {
    hide Spells, Weight, ApprovalDoc, ApprovalWithin;
    if approvals != [] {
      ApprovalWeighs(sp, approvals[0]);
      ApprovalsWeigh(sp, approvals[1..]);
      var doc := ApprovalDoc(sp, approvals[0]);
      assert ([doc] + ApprovalDocs(sp, approvals[1..]))[1..] == ApprovalDocs(sp, approvals[1..]);
    }
  }

  lemma {:induction false} DecisionWeighs(sp: Spelling, c: E.Claims)
    requires Spells(sp) && DigestsProper(c) && NumbersSafe(c) && ApprovalsWithin(c.approvals)
    ensures Weight(DecisionDoc(sp, c)) <= 9000
  {
    hide Weight, MembersWeight, With, Record, Safe, ItemsWeight, ApprovalDocs, ApprovalWithin, DigestDoc;
    RecordsWeigh(sp);
    DigestWeighs(sp, c.approvalSetDigest);
    ApprovalsWeigh(sp, c.approvals);
    ListWeighs(ApprovalDocs(sp, c.approvals));
  }

  lemma {:induction false} IntentWeighs(sp: Spelling, c: E.Claims)
    requires Spells(sp) && DigestsProper(c) && SnapshotWithin(c.snapshot)
    ensures Weight(IntentDoc(sp, c)) <= 16_000
  {
    hide Weight, MembersWeight, With, Record, Safe, SnapshotDoc, SnapshotWithin, DigestDoc;
    RecordsWeigh(sp);
    SnapshotWeighs(sp, c.snapshot);
    DigestWeighs(sp, c.intentDigest);
  }

  lemma {:induction false} SmallPartsWeigh(sp: Spelling, c: E.Claims)
    requires Spells(sp) && TextsWithin(c) && DigestsProper(c) && NumbersSafe(c)
    ensures Weight(ReplayDoc(sp, c)) <= 700 && Weight(AuditDoc(sp, c)) <= 800 && Weight(CapabilityDoc(sp)) <= 1100
  {
    hide Weight, MembersWeight, With, Record;
    RecordsWeigh(sp);
    assert Safe(1);
  }

  lemma {:induction false} EvidenceWeighs(sp: Spelling, c: E.Claims)
    requires Spells(sp) && Within(c)
    ensures MembersWeight(EvidenceMembers(sp, c)) <= 32_200
  {
    hide Weight, MembersWeight, With, Record, Safe, IdentityDoc, IntentDoc, DigestDoc, DecisionDoc, ReplayDoc, AuditDoc,
         CapabilityDoc, SnapshotWithin, ApprovalsWithin;
    RecordsWeigh(sp);
    IdentityWeighs(sp, c);
    IntentWeighs(sp, c);
    DigestWeighs(sp, c.policyDigest);
    DecisionWeighs(sp, c);
    SmallPartsWeigh(sp, c);
  }

  lemma {:induction false} DocumentWeighs(sp: Spelling, c: E.Claims)
    requires Spells(sp) && Within(c)
    ensures Weight(Document(sp, c)) <= 48_000
  {
    hide Weight, MembersWeight, With, Record, Safe, EvidenceMembers, SnapshotWithin, ApprovalsWithin;
    RecordsWeigh(sp);
    EvidenceWeighs(sp, c);
  }

  // Claims within their limits sign, under any key, to a string that verifies to exactly them.
  lemma {:induction false} ClaimsVerify(sp: Spelling, c: E.Claims, ed: J.Scheme, signer: J.Signer)
    requires Spells(sp) && Within(c) && J.Sound(ed) && 1 <= |signer.kid| <= 128
    ensures Survives(ed, Document(sp, c), signer)
  {
    hide Spells, Within, Weight, Document, Survives, Serializable, WellKeyed, J.Sound;
    DocumentWrought(sp, c);
    DocumentWeighs(sp, c);
    LightEnough(ed, Document(sp, c), signer);
  }
}
