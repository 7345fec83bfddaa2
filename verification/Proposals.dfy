// What creating a proposal answers and writes, and what every stored proposal owes to the policy
// and to its request, over every run.
module Proposals {
  import opened Basics
  import opened Evidence
  import opened Integrity
  import opened Exposure
  import opened Operations
  import opened Invariant
  import opened Store
  import opened Runs
  import opened Evolution
  import opened DailyLimit
  import opened Outcomes

  // ----- the policy -----

  const UPPER := "ABCDEFGHIJKLMNOPQRSTUVWXYZ"
  const LOWER := "abcdefghijklmnopqrstuvwxyz"

  // A payee is compared with its letters in lower case and every other character as it is.
  lemma {:induction false} LowerCaseLetters(text: string, i: nat, k: nat)
    requires i < |text| && k < 26
    ensures |LowerCase(text)| == |text|
    ensures text[i] == UPPER[k] ==> LowerCase(text)[i] == LOWER[k]
    ensures text[i] !in UPPER ==> LowerCase(text)[i] == text[i]
  {
    UpperCode(k);
    var code := text[i] as int;
    if 65 <= code <= 90 { UpperCode(code - 65); }
    hide UPPER, LOWER;
  }

  lemma {:induction false} UpperCode(k: nat)
    requires k < 26
    ensures UPPER[k] as int == 65 + k && LOWER[k] as int == 97 + k
  {
  }

  // Each of the four rules, and what they add up to.
  ghost predicate Follows(policy: PolicyConfig, exposure: int, amount: int, payee: string, allowed: bool,
                          reasons: seq<Reason>, required: int) {
    && required == (if amount > policy.dualApprovalThresholdMinor then 2 else 1)
    && (PerTransactionLimitExceeded in reasons <==> amount > policy.perTransactionLimitMinor)
    && (DailyAgentLimitExceeded in reasons <==> exposure + amount > policy.dailyAgentLimitMinor)
    && (PayeeBlocked in reasons <==> LowerCase(payee) in policy.blockedPayees)
    && (PayeeNotAllowlisted in reasons <==>
          policy.allowedPayees.Some? && LowerCase(payee) !in policy.allowedPayees.value)
    && (DistinctDualApprovalRequired in reasons <==> amount > policy.dualApprovalThresholdMinor)
    && (HumanApprovalRequired in reasons <==> amount <= policy.dualApprovalThresholdMinor)
    && (forall i :: 0 <= i < |reasons| ==> !reasons[i].OtherReason?)
    && (allowed <==>
          && amount <= policy.perTransactionLimitMinor && exposure + amount <= policy.dailyAgentLimitMinor
          && LowerCase(payee) !in policy.blockedPayees
          && (policy.allowedPayees.Some? ==> LowerCase(payee) in policy.allowedPayees.value))
  }

  lemma {:induction false} DenialNames(policy: PolicyConfig, exposure: int, p: Proposal)
    ensures var denial, payee := DenialReasons(policy, exposure, p), LowerCase(p.payeeReference);
      && (PerTransactionLimitExceeded in denial <==> p.amountMinor > policy.perTransactionLimitMinor)
      && (DailyAgentLimitExceeded in denial <==> exposure + p.amountMinor > policy.dailyAgentLimitMinor)
      && (PayeeBlocked in denial <==> payee in policy.blockedPayees)
      && (PayeeNotAllowlisted in denial <==> policy.allowedPayees.Some? && payee !in policy.allowedPayees.value)
      && forall r :: r in denial ==>
           r in {PerTransactionLimitExceeded, DailyAgentLimitExceeded, PayeeBlocked, PayeeNotAllowlisted}
  {
    hide LowerCase;
  }

  lemma {:induction false} DecisionFollows(cfg: Config, exposure: int, p: Proposal)
    ensures var d := DecidePolicy(cfg, exposure, p);
      Follows(cfg.policy, exposure, p.amountMinor, p.payeeReference, d.allowed, d.reasons, d.requiredApprovals)
  {
    hide LowerCase, DenialReasons;
    DenialNames(cfg.policy, exposure, p);
    var denial := DenialReasons(cfg.policy, exposure, p);
    var reasons := DecidePolicy(cfg, exposure, p).reasons;
    assert denial != [] ==> denial[0] in denial;
    assert forall r :: r in reasons <==> r in denial || r == reasons[|denial|];
    assert forall i :: 0 <= i < |reasons| ==> reasons[i] in reasons;
  }

  // ----- creating -----

  // The bounds a proposal is checked against.
  predicate WellFormed(cfg: Config, p: Proposal) {
    && 1 <= p.amountMinor <= 9_007_199_254_740_991
    && 1 <= p.expiresInSeconds <= cfg.policy.maxExpirySeconds
    && 1 <= |p.idempotencyKey| <= 128 && 1 <= |p.agentId| <= 128
    && (p.onBehalfOf.Some? ==> 1 <= |p.onBehalfOf.value| <= 128)
    && 6 <= |p.payeeReference| <= 64 && 1 <= |p.purpose| <= 500
  }

  // The request a row was written for.
  function RequestOf(row: Intent): Proposal {
    Proposal(row.idempotencyKey, row.agentId, row.onBehalfOf, row.amountMinor, row.payeeReference, row.purpose,
             (row.expiresAt - row.createdAt) / 1000)
  }

  // The row holds the request, the deadline it asked for, and what the policy said of it; the first
  // event says so too.
  ghost predicate Proposed(cfg: Config, s: Slice, id: Id, p: Proposal, exposure: int, createdAt: int) {
    var row := s.intent;
    && row.id == id && row.tenantId == cfg.tenantId && row.createdAt == createdAt
    && row.expiresAt == createdAt + 1000 * p.expiresInSeconds && RequestOf(row) == p
    && row.requestFingerprint == OfRequest(p) && row.rulesVersion == cfg.policy.rulesVersion
    && row.policyReasons.Some? && row.policyReasons.value.Listed?
    && Follows(cfg.policy, exposure, p.amountMinor, p.payeeReference, row.policyAllowed,
               row.policyReasons.value.reasons, row.requiredApprovals)
    && s.events != []
    && s.events[0].body.actorId == p.agentId && s.events[0].body.occurredAt == createdAt
    && s.events[0].body.eventType == (if row.policyAllowed then ProposalCreated else ProposalPolicyDenied)
    && var policy := Get(s.events[0].body.payload, PolicyField);
    && Member(policy, AllowedField) == Flag(row.policyAllowed)
    && Member(policy, ReasonsField) == ReasonList(row.policyReasons.value.reasons)
    && Member(policy, RequiredApprovalsField) == Number(row.requiredApprovals)
    && Member(policy, CurrentExposureField) == Number(exposure)
    && Member(policy, ProjectedExposureField) == Number(exposure + p.amountMinor)
    && Get(s.events[0].body.payload, BoundaryField) == Text("PROPOSAL_ONLY_NO_VALUE_MOVEMENT")
  }

  // Nothing has happened to it yet.
  ghost predicate Fresh(s: Slice) {
    && s.intent.status == (if s.intent.policyAllowed then AwaitingApproval else PolicyDenied)
    && s.intent.stateVersion == 1 && |s.events| == 1
    && s.approvals == [] && s.observations == [] && s.envelopes == map[]
  }

  lemma {:induction false} NewIsProposed(cfg: Config, id: Id, p: Proposal, exposure: int, createdAt: int)
    ensures var s := NewSlice(cfg, id, p, DecidePolicy(cfg, exposure, p), createdAt);
      Proposed(cfg, s, id, p, exposure, createdAt) && Fresh(s)
  {
    var d := DecidePolicy(cfg, exposure, p);
    var row := NewIntent(cfg, id, p, d, createdAt);
    DecisionFollows(cfg, exposure, p);
    FirstPayloadSays(row, d);
    hide DenialReasons, RequiredApprovals, ApprovalReason, Follows, InitialPayload, WrittenPayload;
    assert (createdAt + p.expiresInSeconds * 1000 - createdAt) / 1000 == p.expiresInSeconds;
  }

  lemma {:induction false} FirstPayloadSays(row: Intent, d: PolicyDecision)
    ensures var policy := Get(InitialPayload(row, d), PolicyField);
      && Member(policy, AllowedField) == Flag(d.allowed) && Member(policy, ReasonsField) == ReasonList(d.reasons)
      && Member(policy, RequiredApprovalsField) == Number(d.requiredApprovals)
      && Member(policy, CurrentExposureField) == Number(d.currentExposure)
      && Member(policy, ProjectedExposureField) == Number(d.projectedExposure)
      && Get(InitialPayload(row, d), BoundaryField) == Text("PROPOSAL_ONLY_NO_VALUE_MOVEMENT")
  {
  }

  // Under a key the agent has not used: a malformed proposal is refused, a taken row id fails, and
  // otherwise the proposal is stored with what the policy says of it, given what the agent's allowed
  // rows of that UTC day that are waiting or authorized add up to.
  lemma {:induction false} CreateAnswers(cfg: Config, w: World, p: Proposal, id: Uuid, policyAt: int, createdAt: int)
    requires forall x :: x in w.book ==>
      !(w.book[x].intent.tenantId == cfg.tenantId && w.book[x].intent.agentId == p.agentId
        && w.book[x].intent.idempotencyKey == p.idempotencyKey)
    ensures var r := Create(cfg, w, p, id, policyAt, createdAt);
      var since := policyAt - policyAt % 86_400_000;
      var exposure := AmountSum(w.book, Counted(w.book, cfg.tenantId, p.agentId, since, None));
      && (!WellFormed(cfg, p) ==> r == Reply(w, Err(ValidationError)))
      && (WellFormed(cfg, p) && id in w.book ==> r == Reply(w, Err(SqlConstraint)))
      && (WellFormed(cfg, p) && id !in w.book ==>
            && r.result == Ok(id) && OnlyChanged(w, r.world, id)
            && Proposed(cfg, r.world.book[id], id, p, exposure, createdAt) && Fresh(r.world.book[id]))
  {
    hide DailyExposure, AmountSum, NewSlice, Proposed, Fresh, DecidePolicy;
    DailyExposureIs(w.book, cfg.tenantId, p.agentId, policyAt);
    NewIsProposed(cfg, id, p, DailyExposure(w.book, cfg.tenantId, p.agentId, policyAt), createdAt);
  }

  // ----- every stored proposal, over every run -----

  // Written for a request, under this policy, at some exposure.
  ghost predicate OfPolicy(cfg: Config, s: Slice) {
    exists exposure: int ::
      Proposed(cfg, s, s.intent.id, RequestOf(s.intent), exposure, s.intent.createdAt)
  }

  ghost predicate BookOfPolicy(cfg: Config, book: Book) { forall id :: id in book ==> OfPolicy(cfg, book[id]) }

  ghost predicate KeysOnce(book: Book) {
    forall a, b ::
      a in book && b in book
      && book[a].intent.agentId == book[b].intent.agentId
      && book[a].intent.idempotencyKey == book[b].intent.idempotencyKey
      ==> a == b
  }

  lemma {:induction false} StaysOfPolicy(cfg: Config, s: Slice, s': Slice)
    requires OfPolicy(cfg, s) && SliceEvolves(s, s')
    ensures OfPolicy(cfg, s') && s'.intent.agentId == s.intent.agentId
    ensures s'.intent.idempotencyKey == s.intent.idempotencyKey && s'.intent.tenantId == cfg.tenantId
  {
    hide Follows;
    var exposure: int :| Proposed(cfg, s, s.intent.id, RequestOf(s.intent), exposure, s.intent.createdAt);
    assert s'.events[0] == s.events[0];
    assert Proposed(cfg, s', s'.intent.id, RequestOf(s'.intent), exposure, s'.intent.createdAt);
  }

  lemma {:induction false} EvolvedOfPolicy(cfg: Config, w: World, w': World)
    requires BookOfPolicy(cfg, w.book) && KeysOnce(w.book) && WorldEvolves(w, w') && w'.book.Keys == w.book.Keys
    ensures BookOfPolicy(cfg, w'.book) && KeysOnce(w'.book)
  {
    hide OfPolicy, SliceEvolves;
    forall id | id in w'.book
      ensures OfPolicy(cfg, w'.book[id]) && w'.book[id].intent.agentId == w.book[id].intent.agentId
      ensures w'.book[id].intent.idempotencyKey == w.book[id].intent.idempotencyKey
    {
      StaysOfPolicy(cfg, w.book[id], w'.book[id]);
    }
  }

  lemma {:induction false} TenantOf(cfg: Config, s: Slice)
    requires OfPolicy(cfg, s)
    ensures s.intent.tenantId == cfg.tenantId
  {
  }

  lemma {:induction false} CreateOfPolicy(cfg: Config, w: World, p: Proposal, id: Uuid, policyAt: int, createdAt: int)
    requires BookOfPolicy(cfg, w.book)
    ensures BookOfPolicy(cfg, Create(cfg, w, p, id, policyAt, createdAt).world.book)
  {
    hide DailyExposure, NewSlice, OfPolicy, DecidePolicy, ProposalOk, FindByKey;
    if Create(cfg, w, p, id, policyAt, createdAt).world != w {
      var exposure := DailyExposure(w.book, cfg.tenantId, p.agentId, policyAt);
      var s := NewSlice(cfg, id, p, DecidePolicy(cfg, exposure, p), createdAt);
      NewIsProposed(cfg, id, p, exposure, createdAt);
      ProposedOfPolicy(cfg, s, id, p, exposure, createdAt);
    }
  }

  lemma {:induction false} CreateKeepsOnce(cfg: Config, w: World, p: Proposal, id: Uuid, policyAt: int, createdAt: int)
    requires BookOfPolicy(cfg, w.book) && KeysOnce(w.book)
    ensures KeysOnce(Create(cfg, w, p, id, policyAt, createdAt).world.book)
  {
    hide DailyExposure, OfPolicy, DecidePolicy, ProposalOk;
    forall x | x in w.book ensures w.book[x].intent.tenantId == cfg.tenantId { TenantOf(cfg, w.book[x]); }
  }

  lemma {:induction false} ProposedOfPolicy(cfg: Config, s: Slice, id: Id, p: Proposal, exposure: int, createdAt: int)
    requires Proposed(cfg, s, id, p, exposure, createdAt)
    ensures OfPolicy(cfg, s) && s.intent.agentId == p.agentId && s.intent.idempotencyKey == p.idempotencyKey
  {
    hide Follows;
    assert Proposed(cfg, s, s.intent.id, RequestOf(s.intent), exposure, s.intent.createdAt);
  }

  lemma {:induction false} RunOfPolicy(cfg: Config, ops: seq<Op>)
    requires ConfigOk(cfg)
    ensures var book := Run(cfg, EMPTY_WORLD, ops).book; BookOfPolicy(cfg, book) && KeysOnce(book)
  {
    hide Apply, OfPolicy, WorldEvolves, WorldInv;
    if ops != [] {
      hide BookOfPolicy, KeysOnce;
      var init, op := ops[..|ops| - 1], Last(ops);
      RunOfPolicy(cfg, init);
      EmptyInv(cfg);
      RunKeeps(cfg, EMPTY_WORLD, init);
      var before := Run(cfg, EMPTY_WORLD, init);
      StepOfPolicy(cfg, before, op);
    }
  }

  lemma {:induction false} EmptyInv(cfg: Config)
    requires ConfigOk(cfg)
    ensures WorldInv(cfg, EMPTY_WORLD)
  {
  }

  lemma {:induction false} StepOfPolicy(cfg: Config, w: World, op: Op)
    requires WorldInv(cfg, w) && BookOfPolicy(cfg, w.book) && KeysOnce(w.book)
    ensures BookOfPolicy(cfg, Apply(cfg, w, op).book) && KeysOnce(Apply(cfg, w, op).book)
  {
    hide BookOfPolicy, KeysOnce, WorldInv, WorldEvolves, Create;
    if op.CreateOp? {
      CreateOfPolicy(cfg, w, op.p, op.newId, op.policyAt, op.createdAt);
      CreateKeepsOnce(cfg, w, op.p, op.newId, op.policyAt, op.createdAt);
    } else {
      KeysKept(cfg, w, op);
      ApplyEvolves(cfg, w, op);
      EvolvedOfPolicy(cfg, w, Apply(cfg, w, op));
    }
  }

  // In every reachable store each proposal is what the policy made of its request, and no agent has
  // two under one key.
  lemma {:induction false} EveryRowFollowsPolicy(cfg: Config, w: World)
    requires Reachable(cfg, w)
    ensures BookOfPolicy(cfg, w.book) && KeysOnce(w.book)
  {
    hide Run, BookOfPolicy, KeysOnce;
    var ops :| w == Run(cfg, EMPTY_WORLD, ops);
    RunOfPolicy(cfg, ops);
  }

  lemma {:induction false} RequiredOf(cfg: Config, s: Slice)
    requires OfPolicy(cfg, s)
    ensures s.intent.requiredApprovals == if s.intent.amountMinor > cfg.policy.dualApprovalThresholdMinor then 2 else 1
  {
  }

  // In every reachable store an authorized proposal carries exactly the approvals its amount asks
  // for: two, by different people, above the dual-approval threshold, and one up to it.
  lemma {:induction false} DualApprovalHolds(cfg: Config, w: World, id: Id)
    requires Reachable(cfg, w) && id in w.book && w.book[id].intent.status == AuthorizedNoDispatch
    ensures var s := w.book[id];
      && |s.approvals| == (if s.intent.amountMinor > cfg.policy.dualApprovalThresholdMinor then 2 else 1)
      && (forall i :: 0 <= i < |s.approvals| ==>
            && s.approvals[i].decision == Approve && s.approvals[i].actorId != s.intent.agentId
            && (s.approvals[i].actorRole == Approver || s.approvals[i].actorRole == Admin))
      && (forall i, j :: 0 <= i < j < |s.approvals| ==> s.approvals[i].actorId != s.approvals[j].actorId)
  {
    hide Reachable, OfPolicy, SliceInv;
    EveryRowFollowsPolicy(cfg, w);
    RequiredOf(cfg, w.book[id]);
    ReachableInv(cfg, w);
    AuthorizedRows(cfg, w.registry, id, w.book[id]);
  }

  lemma {:induction false} ReviewersDiffer(row: Intent, approvals: seq<Approval>)
    requires ApprovalsConsistent(row, approvals)
    ensures forall i :: 0 <= i < |approvals| ==>
      && approvals[i].actorId != row.agentId
      && (approvals[i].actorRole == Approver || approvals[i].actorRole == Admin)
    ensures forall i, j :: 0 <= i < j < |approvals| ==> approvals[i].actorId != approvals[j].actorId
  {
    forall i | 0 <= i < |approvals|
      ensures approvals[i].actorId != row.agentId
      ensures approvals[i].actorRole == Approver || approvals[i].actorRole == Admin
      ensures forall j :: 0 <= j < i ==> approvals[j].actorId != approvals[i].actorId
    {
      assert SemanticsValid(row, approvals, i);
    }
  }

  lemma {:induction false} AuthorizedApprove(s: Slice)
    requires Phase(s) && s.intent.status == AuthorizedNoDispatch
    ensures |s.approvals| == s.intent.requiredApprovals
    ensures forall i :: 0 <= i < |s.approvals| ==> s.approvals[i].decision == Approve
  {
  }

  lemma {:induction false} AuthorizedRows(cfg: Config, reg: Registry, id: Id, s: Slice)
    requires SliceInv(cfg, reg, id, s) && s.intent.status == AuthorizedNoDispatch
    ensures |s.approvals| == s.intent.requiredApprovals
    ensures forall i :: 0 <= i < |s.approvals| ==>
      && s.approvals[i].decision == Approve && s.approvals[i].actorId != s.intent.agentId
      && (s.approvals[i].actorRole == Approver || s.approvals[i].actorRole == Admin)
    ensures forall i, j :: 0 <= i < j < |s.approvals| ==> s.approvals[i].actorId != s.approvals[j].actorId
  {
    hide *;
    InvariantParts(cfg, reg, id, s);
    ReviewersDiffer(s.intent, s.approvals);
    AuthorizedApprove(s);
  }

  // Under a key the agent has used, the stored proposal comes back if the request is the same in
  // every member, and the request conflicts if it is not; nothing changes.
  lemma {:induction false} CreateAgainAnswers(cfg: Config, w: World, p: Proposal, id: Uuid, policyAt: int,
                                              createdAt: int, x: Id)
    requires Reachable(cfg, w) && WellFormed(cfg, p) && x in w.book
    requires w.book[x].intent.agentId == p.agentId && w.book[x].intent.idempotencyKey == p.idempotencyKey
    ensures var row := w.book[x].intent;
      Create(cfg, w, p, id, policyAt, createdAt)
      == Reply(w, if row.amountMinor == p.amountMinor && row.payeeReference == p.payeeReference
                     && row.purpose == p.purpose && row.onBehalfOf == p.onBehalfOf
                     && row.expiresAt == row.createdAt + 1000 * p.expiresInSeconds
                  then Ok(x) else Err(IdempotencyConflict))
  {
    hide Reachable, OfPolicy, DailyExposure, DecidePolicy, NewSlice;
    EveryRowFollowsPolicy(cfg, w);
    FingerprintOf(cfg, w.book[x]);
    assert UsesKey(w.book[x].intent, cfg, p.agentId, p.idempotencyKey);
  }

  lemma {:induction false} FingerprintOf(cfg: Config, s: Slice)
    requires OfPolicy(cfg, s)
    ensures s.intent.tenantId == cfg.tenantId && s.intent.requestFingerprint == OfRequest(RequestOf(s.intent))
    ensures s.intent.expiresAt == s.intent.createdAt + 1000 * RequestOf(s.intent).expiresInSeconds
  {
    hide Follows;
  }
}
