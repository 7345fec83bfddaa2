// Creation establishes the invariant of Invariant.dfy; every later operation keeps it.
module Preservation {
  import opened Basics
  import opened Evidence
  import opened Integrity
  import opened Counting
  import opened Operations
  import opened Invariant

  // ----- creation -----

  lemma {:induction false} ApprovingAppend(a: seq<Reason>, b: seq<Reason>)
    ensures Approving(a + b) == Approving(a) + Approving(b)
  {
    if a == [] {
      assert a + b == b;
    } else {
      assert (a + b)[0] == a[0] && (a + b)[1..] == a[1..] + b;
      ApprovingAppend(a[1..], b);
    }
  }

  lemma {:induction false} DenyingAppend(a: seq<Reason>, b: seq<Reason>)
    ensures Denying(a + b) == Denying(a) + Denying(b)
  {
    if a == [] {
      assert a + b == b;
    } else {
      assert (a + b)[0] == a[0] && (a + b)[1..] == a[1..] + b;
      DenyingAppend(a[1..], b);
    }
  }

  lemma {:induction false} PartitionPure(reasons: seq<Reason>)
    requires forall i :: 0 <= i < |reasons| ==> !IsApprovalReason(reasons[i])
    ensures Approving(reasons) == [] && Denying(reasons) == reasons
  {
    if reasons != [] {
      PartitionPure(reasons[1..]);
      assert reasons == [reasons[0]] + reasons[1..];
    }
  }

  // decidePolicy's reason list passes the checker's reason rules.
  lemma {:induction false} ReasonsDistinct(policy: PolicyConfig, exposure: int, p: Proposal, required: int)
    ensures AllDistinct(DenialReasons(policy, exposure, p) + [ApprovalReason(required)])
    ensures forall i :: 0 <= i < |DenialReasons(policy, exposure, p)| ==>
      !IsApprovalReason(DenialReasons(policy, exposure, p)[i])
  {
    hide LowerCase;
  }

  lemma {:induction false} ApprovalAlone(required: int)
    ensures var approval := [ApprovalReason(required)]; Approving(approval) == approval && Denying(approval) == []
  {
    assert [ApprovalReason(required)][1..] == [];
  }

  lemma {:induction false} DecidedReasonsConsistent(policy: PolicyConfig, exposure: int, p: Proposal, row: Intent)
    requires row.requiredApprovals == if p.amountMinor > policy.dualApprovalThresholdMinor then 2 else 1
    requires row.policyAllowed == (DenialReasons(policy, exposure, p) == [])
    ensures ReasonsConsistent(row, DenialReasons(policy, exposure, p) + [ApprovalReason(row.requiredApprovals)])
    ensures ApprovalReason(row.requiredApprovals) == if p.amountMinor > policy.dualApprovalThresholdMinor
                                                     then DistinctDualApprovalRequired else HumanApprovalRequired
  {
    hide DenialReasons, AllDistinct, IsApprovalReason;
    var denial := DenialReasons(policy, exposure, p);
    var approval := [ApprovalReason(row.requiredApprovals)];
    ReasonsDistinct(policy, exposure, p, row.requiredApprovals);
    ApprovingAppend(denial, approval);
    DenyingAppend(denial, approval);
    PartitionPure(denial);
    ApprovalAlone(row.requiredApprovals);
  }

  // The written document and the one read back from the row are the same.
  lemma {:induction false} ReadBackPayload(cfg: Config, id: Id, p: Proposal, d: PolicyDecision, createdAt: int)
    requires d.configDigest == ConfigDigest(cfg)
    ensures var row := NewIntent(cfg, id, p, d, createdAt);
      && row.policyReasons.Some?
      && PayloadFromRow(cfg, row) == WrittenPayload(cfg, id, p, createdAt, row.expiresAt, d, row.initialStatus)
      && IntentHashValid(cfg, row)
  {
  }

  function FirstEvent(cfg: Config, id: Id, p: Proposal, d: PolicyDecision, createdAt: int): AuditEvent {
    var row := NewIntent(cfg, id, p, d, createdAt);
    NewEvent(Slice(row, [], [], [], map[]), if d.allowed then ProposalCreated else ProposalPolicyDenied,
             p.agentId, InitialPayload(row, d), createdAt)
  }

  lemma {:induction false} SelectFirst(e: AuditEvent, kind: EventType -> bool)
    ensures Select([e], kind) == if kind(e.body.eventType) then [e] else []
  {
    SelectSnoc([], e, kind);
    assert [] + [e] == [e];
  }

  lemma {:induction false} CreationEvent(cfg: Config, id: Id, p: Proposal, d: PolicyDecision, createdAt: int)
    requires d.configDigest == ConfigDigest(cfg)
    ensures var row := NewIntent(cfg, id, p, d, createdAt);
      var events := [FirstEvent(cfg, id, p, d, createdAt)];
      && ChainValid(row, events)
      && InitialEventConsistent(cfg, row, events) && InitialTenantStateConsistent(cfg, events)
  {
    CreationChain(cfg, id, p, d, createdAt);
    var row := NewIntent(cfg, id, p, d, createdAt);
    PolicyMembers(d);
    InitialMembers(row, d);
    hide ChainValid, WrittenPayload, PolicyRecord, InitialPayload, Member;
  }

  lemma {:induction false} PolicyMembers(d: PolicyDecision)
    ensures var v := PolicyRecord(d);
      && v.Record?
      && Member(v, AllowedField) == Flag(d.allowed) && Member(v, RulesVersionField) == Text(d.rulesVersion)
      && Member(v, RequiredApprovalsField) == Number(d.requiredApprovals)
      && Member(v, ReasonsField) == ReasonList(d.reasons) && Member(v, ConfigDigestField) == DigestText(d.configDigest)
  {
  }

  lemma {:induction false} InitialMembers(row: Intent, d: PolicyDecision)
    ensures var v := InitialPayload(row, d);
      && IsRecord(v)
      && Get(v, PolicyField) == PolicyRecord(d) && Get(v, StatusField) == StatusText(row.initialStatus)
      && Get(v, IntentHashField) == DigestText(row.intentHash)
      && Get(v, TenantIdField) == Text(row.tenantId) && Get(v, StateVersionField) == Number(1)
  {
    hide PolicyRecord;
  }

  lemma {:induction false} CreationChain(cfg: Config, id: Id, p: Proposal, d: PolicyDecision, createdAt: int)
    ensures ChainValid(NewIntent(cfg, id, p, d, createdAt), [FirstEvent(cfg, id, p, d, createdAt)])
  {
    hide PolicyRecord, WrittenPayload;
    var row, e := NewIntent(cfg, id, p, d, createdAt), FirstEvent(cfg, id, p, d, createdAt);
    assert EventValid(row, [e], 0);
  }

  lemma {:induction false} CreationStatus(cfg: Config, id: Id, p: Proposal, d: PolicyDecision, createdAt: int)
    ensures StatusConsistent(NewIntent(cfg, id, p, d, createdAt), [FirstEvent(cfg, id, p, d, createdAt)])
  {
    var e := FirstEvent(cfg, id, p, d, createdAt);
    AuditedStatusSnoc([], e);
    assert [] + [e] == [e];
    SelectFirst(e, IsReview);
    SelectFirst(e, IsTerminal);
  }

  // A slice that holds nothing but its first event.
  lemma {:induction false} BareSliceConsistent(cfg: Config, reg: Registry, s: Slice, e: AuditEvent)
    requires s.events == [e] && s.approvals == [] && s.observations == [] && s.envelopes == map[]
    requires e.body.eventType == ProposalCreated || e.body.eventType == ProposalPolicyDenied
    ensures ReviewsConsistent(s.approvals, s.events)
    ensures ObservationsConsistent(s.intent, s.observations, s.events)
    ensures EnvelopesConsistent(cfg, reg, s)
    ensures ReviewersKnown(s) && |Select(s.events, IsTerminal)| == 0
  {
    SelectFirst(e, IsReview);
    SelectFirst(e, IsObservation);
    SelectFirst(e, IsIssue);
    SelectFirst(e, IsConsume);
    SelectFirst(e, IsTerminal);
    assert Consumed(s.envelopes) == {};
  }

  lemma {:induction false} CreationGreen(cfg: Config, reg: Registry, id: Id, p: Proposal, exposure: int, createdAt: int)
    requires ConfigOk(cfg) && ProposalOk(cfg, p)
    ensures Green(cfg, reg, NewSlice(cfg, id, p, DecidePolicy(cfg, exposure, p), createdAt))
  {
    var d := DecidePolicy(cfg, exposure, p);
    var s := NewSlice(cfg, id, p, d, createdAt);
    var e := FirstEvent(cfg, id, p, d, createdAt);
    assert s.events == [e];
    ReadBackPayload(cfg, id, p, d, createdAt);
    DecidedReasonsConsistent(cfg.policy, exposure, p, s.intent);
    CreationEvent(cfg, id, p, d, createdAt);
    CreationStatus(cfg, id, p, d, createdAt);
    BareSliceConsistent(cfg, reg, s, e);
    PhaseMeetsThreshold(cfg, s);
  }

  lemma {:induction false} CreationLifecycle(cfg: Config, id: Id, p: Proposal, exposure: int, createdAt: int)
    requires ConfigOk(cfg) && ProposalOk(cfg, p)
    ensures Lifecycle(cfg, id, NewSlice(cfg, id, p, DecidePolicy(cfg, exposure, p), createdAt))
  {
    var d := DecidePolicy(cfg, exposure, p);
    var s := NewSlice(cfg, id, p, d, createdAt);
    var e := FirstEvent(cfg, id, p, d, createdAt);
    assert s.events == [e] && e.body.occurredAt == createdAt < s.intent.expiresAt;
    SelectFirst(e, IsTerminal);
    assert BeforeDeadline(s);
  }

  lemma {:induction false} CreationEstablishes(cfg: Config, reg: Registry, id: Id, p: Proposal, exposure: int,
                                               createdAt: int)
    requires ConfigOk(cfg) && ProposalOk(cfg, p)
    ensures SliceInv(cfg, reg, id, NewSlice(cfg, id, p, DecidePolicy(cfg, exposure, p), createdAt))
  {
    CreationGreen(cfg, reg, id, p, exposure, createdAt);
    CreationLifecycle(cfg, id, p, exposure, createdAt);
  }

  // What every operation has left to show for a green report.
  lemma {:induction false} GreenAfter(cfg: Config, reg: Registry, s: Slice, s': Slice)
    requires RowConsistent(cfg, s.intent) && IntentHashValid(cfg, s.intent)
    requires s'.intent == s.intent.(status := s'.intent.status, stateVersion := s'.intent.stateVersion)
    requires Phase(s') && !s'.intent.status.OtherStatus?
    requires s'.intent.policyAllowed <==> s'.intent.status != PolicyDenied
    requires s'.observations != [] ==> s'.intent.status == AuthorizedNoDispatch
    requires ReceiptsValid(cfg, s'.intent, s'.approvals) && ApprovalsConsistent(s'.intent, s'.approvals)
    requires ChainValid(s'.intent, s'.events)
    requires InitialEventConsistent(cfg, s'.intent, s'.events) && InitialTenantStateConsistent(cfg, s'.events)
    requires ReviewsConsistent(s'.approvals, s'.events)
    requires ObservationsConsistent(s'.intent, s'.observations, s'.events)
    requires EnvelopesConsistent(cfg, reg, s')
    requires StatusConsistent(s'.intent, s'.events)
    ensures Green(cfg, reg, s')
  {
    PhaseMeetsThreshold(cfg, s');
  }

  // ----- cancel and expire -----

  lemma {:induction false} PhaseEnds(s: Slice, s': Slice)
    requires Phase(s) && s.intent.status == AwaitingApproval
    requires s'.approvals == s.approvals && s'.intent.requiredApprovals == s.intent.requiredApprovals
    requires s'.intent.status == Cancelled || s'.intent.status == Expired
    ensures Phase(s')
  {
  }

  // A terminal event and the move it records.
  ghost predicate Terminates(s: Slice, s': Slice, status: Status, e: AuditEvent) {
    && s.intent.status == AwaitingApproval && (status == Cancelled || status == Expired)
    && s' == Moved(s, status).(events := s.events + [e])
    && Extends(s.intent, s'.intent, s.events, e)
    && IsTerminal(e.body.eventType) && StatusAfter(Some(s.intent.status), e.body) == Some(status)
  }

  lemma {:induction false} TerminalFacts(s: Slice, status: Status, eventType: EventType, actorId: string, at: int)
    requires s.intent.status == AwaitingApproval && CanAppend(s, at)
    requires (status == Cancelled && eventType == ProposalCancelled)
      || (status == Expired && eventType == ProposalExpired)
    ensures var s' := Append(Moved(s, status), eventType, actorId, StatusPayload(status), at);
      s'.events != [] && Terminates(s, s', status, Last(s'.events))
  {
    var moved := Moved(s, status);
    var e := NewEvent(moved, eventType, actorId, StatusPayload(status), at);
    assert Last(Append(moved, eventType, actorId, StatusPayload(status), at).events) == e;
  }

  lemma {:induction false} TerminalLog(cfg: Config, s: Slice, s': Slice, status: Status, e: AuditEvent)
    requires Terminates(s, s', status, e) && |Select(s.events, IsTerminal)| == 0
    requires ChainValid(s.intent, s.events) && StatusConsistent(s.intent, s.events)
    requires InitialEventConsistent(cfg, s.intent, s.events) && InitialTenantStateConsistent(cfg, s.events)
    ensures ChainValid(s'.intent, s'.events) && StatusConsistent(s'.intent, s'.events)
    ensures InitialEventConsistent(cfg, s'.intent, s'.events) && InitialTenantStateConsistent(cfg, s'.events)
    ensures |Select(s'.events, IsTerminal)| == 1
  {
    hide InitialEventConsistent, InitialTenantStateConsistent, ChainValid, StatusConsistent, Select, Extends;
    LogSnoc(cfg, s.intent, s'.intent, s.events, e);
    StatusSnoc(s.intent, s'.intent, s.events, e);
  }

  lemma {:induction false} TerminalRows(cfg: Config, reg: Registry, s: Slice, s': Slice, status: Status, e: AuditEvent)
    requires Terminates(s, s', status, e)
    requires ReceiptsValid(cfg, s.intent, s.approvals) && ApprovalsConsistent(s.intent, s.approvals)
    requires ReviewsConsistent(s.approvals, s.events) && ObservationsConsistent(s.intent, s.observations, s.events)
    requires EnvelopesConsistent(cfg, reg, s)
    ensures ReceiptsValid(cfg, s'.intent, s'.approvals) && ApprovalsConsistent(s'.intent, s'.approvals)
    ensures ReviewsConsistent(s'.approvals, s'.events) && ObservationsConsistent(s'.intent, s'.observations, s'.events)
    ensures EnvelopesConsistent(cfg, reg, s')
  {
    hide ReceiptsValid, ApprovalsConsistent, ReviewsConsistent, ObservationsConsistent, EnvelopesConsistent, Extends;
    ApprovalsSurvive(cfg, s.intent, s'.intent, s.approvals);
    ReviewsSnoc(s.approvals, s.events, e);
    ObservationsSnoc(s.intent, s'.intent, s.observations, s.events, e);
    EnvelopesSnoc(cfg, reg, s, s', e);
  }

  lemma {:induction false} TerminalGreen(cfg: Config, reg: Registry, id: Id, s: Slice, s': Slice, status: Status,
                                         e: AuditEvent)
    requires SliceInv(cfg, reg, id, s) && Terminates(s, s', status, e)
    ensures Green(cfg, reg, s') && |Select(s'.events, IsTerminal)| == 1
  {
    InvariantParts(cfg, reg, id, s);
    hide SliceInv, Green, ReceiptsValid, ApprovalsConsistent, InitialEventConsistent, InitialTenantStateConsistent,
         ReviewsConsistent, ObservationsConsistent, EnvelopesConsistent, ChainValid, StatusConsistent, RowConsistent,
         IntentHashValid, Select, Phase, Extends, ReviewersKnown, ObservedInOrder, EnvelopesBind;
    PhaseEnds(s, s');
    TerminalLog(cfg, s, s', status, e);
    TerminalRows(cfg, reg, s, s', status, e);
    GreenAfter(cfg, reg, s, s');
  }

  lemma {:induction false} KnownSnoc(s: Slice, s': Slice, e: AuditEvent)
    requires ReviewersKnown(s) && s'.events == s.events + [e] && s.approvals <= s'.approvals
    requires IsReview(e.body.eventType) ==> HasReviewed(s', e.body.actorId)
    ensures ReviewersKnown(s')
  {
    forall k | 0 <= k < |s'.events| && IsReview(s'.events[k].body.eventType)
      ensures HasReviewed(s', s'.events[k].body.actorId)
    {
      if k < |s.events| {
        assert HasReviewed(s, s.events[k].body.actorId);
        var i :| 0 <= i < |s.approvals| && s.approvals[i].actorId == s.events[k].body.actorId;
        assert s'.approvals[i] == s.approvals[i];
      }
    }
  }

  lemma {:induction false} TerminalLifecycle(cfg: Config, id: Id, s: Slice, s': Slice, status: Status, e: AuditEvent)
    requires Lifecycle(cfg, id, s) && s.envelopes == map[] && s.observations == []
    requires Terminates(s, s', status, e) && |Select(s'.events, IsTerminal)| == 1
    ensures Lifecycle(cfg, id, s')
  {
    KnownSnoc(s, s', e);
    PhaseEnds(s, s');
    NothingBinds(cfg, s');
    hide Select, Phase, ReviewersKnown, BeforeDeadline, ObservedInOrder, EnvelopesBind, Extends;
  }

  lemma {:induction false} NothingBinds(cfg: Config, s: Slice)
    requires s.envelopes == map[] && s.observations == []
    ensures EnvelopesBind(cfg, s) && ObservedInOrder(s)
  {
    hide ClaimsBind;
  }

  lemma {:induction false} TerminalKeeps(cfg: Config, reg: Registry, id: Id, s: Slice, status: Status,
                                         eventType: EventType, actorId: string, at: int)
    requires SliceInv(cfg, reg, id, s) && s.intent.status == AwaitingApproval && CanAppend(s, at)
    requires (status == Cancelled && eventType == ProposalCancelled)
      || (status == Expired && eventType == ProposalExpired)
    ensures SliceInv(cfg, reg, id, Append(Moved(s, status), eventType, actorId, StatusPayload(status), at))
  {
    InvariantParts(cfg, reg, id, s);
    TerminalFacts(s, status, eventType, actorId, at);
    hide Green, Lifecycle, Append, Terminates, Select, EnvelopesConsistent, EnvelopesBind, ReviewersKnown, Phase,
         ObservedInOrder, RowConsistent, IntentHashValid, ReceiptsValid, ApprovalsConsistent, ChainValid,
         StatusConsistent, InitialEventConsistent, InitialTenantStateConsistent, ReviewsConsistent,
         ObservationsConsistent, CanAppend;
    var s' := Append(Moved(s, status), eventType, actorId, StatusPayload(status), at);
    TerminalGreen(cfg, reg, id, s, s', status, Last(s'.events));
    TerminalLifecycle(cfg, id, s, s', status, Last(s'.events));
  }

  // ----- approve and reject -----

  // The conditions approveIntent has established when it inserts its row.
  ghost predicate MayReview(s: Slice, actorId: string, role: Role, at: int) {
    && s.intent.status == AwaitingApproval
    && actorId != "" && actorId != s.intent.agentId && IsHumanRole(role)
    && at < s.intent.expiresAt && CanAppend(s, at)
    && !HasReviewed(s, actorId)
  }

  lemma {:induction false} ReviewRows(cfg: Config, s: Slice, actorId: string, role: Role, decision: Decision, at: int)
    requires ReceiptsValid(cfg, s.intent, s.approvals) && ApprovalsConsistent(s.intent, s.approvals)
    requires MayReview(s, actorId, role, at)
    ensures var s' := ReviewedSlice(cfg, s, actorId, role, decision, at);
      ReceiptsValid(cfg, s'.intent, s'.approvals) && ApprovalsConsistent(s'.intent, s'.approvals)
  {
    var s' := ReviewedSlice(cfg, s, actorId, role, decision, at);
    forall i | 0 <= i < |s'.approvals|
      ensures ReceiptValid(cfg, s'.intent, s'.approvals[i]) && SemanticsValid(s'.intent, s'.approvals, i)
    {
      if i < |s.approvals| {
        assert ReceiptValid(cfg, s.intent, s.approvals[i]) && SemanticsValid(s.intent, s.approvals, i);
        assert forall j :: 0 <= j <= i ==> s'.approvals[j] == s.approvals[j];
      }
    }
  }

  lemma {:induction false} ReviewEvents(s: Slice, events': seq<AuditEvent>, a: Approval, e: AuditEvent)
    requires ReviewsConsistent(s.approvals, s.events) && ReviewersKnown(s) && !HasReviewed(s, a.actorId)
    requires ReviewMatches(e, a) && events' == s.events + [e]
    ensures ReviewsConsistent(s.approvals + [a], events')
  {
    SelectSnoc(s.events, e, IsReview);
    forall i | 0 <= i < |s.approvals + [a]| ensures CountTrue(ReviewMarks(events', (s.approvals + [a])[i])) == 1 {
      var b := (s.approvals + [a])[i];
      ReviewMarksSnoc(s.events, e, b);
      if i < |s.approvals| {
        assert b == s.approvals[i] && b.actorId != a.actorId;
      } else {
        var marks := ReviewMarks(s.events, a);
        forall k | 0 <= k < |marks| ensures !marks[k] {
          assert marks[k] == ReviewMatches(s.events[k], a);
        }
        NoneTrue(marks);
      }
    }
  }

  // The parts of a green report that an appended event and a new status touch.
  lemma {:induction false} ReviewEventFacts(cfg: Config, s: Slice, actorId: string, role: Role, decision: Decision,
                                            at: int)
    requires s.intent.status == AwaitingApproval
    ensures var s' := ReviewedSlice(cfg, s, actorId, role, decision, at);
      && s'.events != [] && s'.events == s.events + [Last(s'.events)]
      && var e := Last(s'.events);
      && IsReview(e.body.eventType) && e.body.payload.Json? && e.body.intentId == s.intent.id
      && e.body.previousHash == Tip(s.events) && e.eventHash == OfEvent(e.body)
      && e.body.occurredAt == at && e.body.actorId == actorId
      && IsReviewOutcome(Get(e.body.payload, ResultingStatusField))
      && StatusAfter(Some(AwaitingApproval), e.body) == Some(s'.intent.status)
      && ReviewMatches(e, NewApproval(cfg, s, actorId, role, decision, at))
  {
    hide OutcomeOf, IsReviewOutcome, ReviewPayload, Get;
    var a := NewApproval(cfg, s, actorId, role, decision, at);
    OutcomeIs(s, decision);
    ReviewPayloadSays(a, OutcomeOf(s, decision));
  }

  lemma {:induction false} OutcomeIs(s: Slice, decision: Decision)
    ensures IsReviewOutcome(StatusText(OutcomeOf(s, decision)))
  {
  }

  lemma {:induction false} ReviewPayloadSays(a: Approval, outcome: Status)
    ensures var p := ReviewPayload(a, outcome);
      && IsRecord(p) && Get(p, ResultingStatusField) == StatusText(outcome)
      && Get(p, ActorRoleField) == RoleText(a.actorRole) && Get(p, DecisionField) == DecisionText(a.decision)
      && Get(p, IntentHashField) == DigestText(a.intentHash) && Get(p, ReceiptHmacField) == MacText(a.receipt)
  {
  }

  lemma {:induction false} ReviewLog(cfg: Config, s: Slice, s': Slice, a: Approval, e: AuditEvent)
    requires s'.intent == s.intent.(status := s'.intent.status, stateVersion := s.intent.stateVersion + 1)
    requires s'.events == s.events + [e] && s'.approvals == s.approvals + [a] && s'.observations == s.observations
    requires s.intent.status == AwaitingApproval && CanAppend(s, e.body.occurredAt)
    requires ReviewersKnown(s) && !HasReviewed(s, a.actorId) && |Select(s.events, IsTerminal)| == 0
    requires IsReview(e.body.eventType) && e.body.payload.Json? && e.body.intentId == s.intent.id
    requires e.body.previousHash == Tip(s.events) && e.eventHash == OfEvent(e.body)
    requires IsReviewOutcome(Get(e.body.payload, ResultingStatusField))
    requires StatusAfter(Some(AwaitingApproval), e.body) == Some(s'.intent.status) && ReviewMatches(e, a)
    requires ChainValid(s.intent, s.events) && StatusConsistent(s.intent, s.events)
    requires InitialEventConsistent(cfg, s.intent, s.events) && InitialTenantStateConsistent(cfg, s.events)
    requires ReviewsConsistent(s.approvals, s.events) && ObservationsConsistent(s.intent, s.observations, s.events)
    ensures ChainValid(s'.intent, s'.events) && StatusConsistent(s'.intent, s'.events)
    ensures InitialEventConsistent(cfg, s'.intent, s'.events) && InitialTenantStateConsistent(cfg, s'.events)
    ensures ReviewsConsistent(s'.approvals, s'.events) && ObservationsConsistent(s'.intent, s'.observations, s'.events)
    ensures |Select(s'.events, IsTerminal)| == 0
  {
    ChainSnoc(s.intent, s'.intent, s.events, e);
    InitialSnoc(cfg, s.intent, s'.intent, s.events, e);
    ReviewEvents(s, s'.events, a, e);
    ObservationsSnoc(s.intent, s'.intent, s.observations, s.events, e);
    StatusSnoc(s.intent, s'.intent, s.events, e);
  }

  lemma {:induction false} ReviewGreenFrom(cfg: Config, reg: Registry, s: Slice, s': Slice, a: Approval, e: AuditEvent)
    requires Green(cfg, reg, s) && ReviewersKnown(s) && |Select(s.events, IsTerminal)| == 0
    requires s.intent.status == AwaitingApproval && s.observations == []
    requires s'.intent == s.intent.(status := s'.intent.status, stateVersion := s.intent.stateVersion + 1)
    requires s'.events == s.events + [e] && s'.approvals == s.approvals + [a]
    requires s'.observations == [] && s'.envelopes == s.envelopes
    requires CanAppend(s, e.body.occurredAt) && !HasReviewed(s, a.actorId)
    requires IsReview(e.body.eventType) && e.body.payload.Json? && e.body.intentId == s.intent.id
    requires e.body.previousHash == Tip(s.events) && e.eventHash == OfEvent(e.body)
    requires IsReviewOutcome(Get(e.body.payload, ResultingStatusField))
    requires StatusAfter(Some(AwaitingApproval), e.body) == Some(s'.intent.status) && ReviewMatches(e, a)
    requires ReceiptsValid(cfg, s'.intent, s'.approvals) && ApprovalsConsistent(s'.intent, s'.approvals)
    requires Phase(s')
    ensures Green(cfg, reg, s') && |Select(s'.events, IsTerminal)| == 0
  {
    ReviewLog(cfg, s, s', a, e);
    EnvelopesSnoc(cfg, reg, s, s', e);
    GreenAfter(cfg, reg, s, s');
  }

  lemma {:induction false} ReviewedParts(cfg: Config, s: Slice, actorId: string, role: Role, decision: Decision,
                                         at: int)
    ensures var s' := ReviewedSlice(cfg, s, actorId, role, decision, at);
      var a := NewApproval(cfg, s, actorId, role, decision, at);
      && s'.intent == s.intent.(status := s'.intent.status, stateVersion := s.intent.stateVersion + 1)
      && s'.approvals == s.approvals + [a] && a.actorId == actorId
      && s'.observations == s.observations && s'.envelopes == s.envelopes
  {
    hide OutcomeOf, ReviewPayload;
  }

  lemma {:induction false} ReviewGreen(cfg: Config, reg: Registry, id: Id, s: Slice, actorId: string, role: Role,
                                       decision: Decision, at: int)
    requires SliceInv(cfg, reg, id, s) && MayReview(s, actorId, role, at) && s.observations == []
    requires Phase(ReviewedSlice(cfg, s, actorId, role, decision, at))
    ensures var s' := ReviewedSlice(cfg, s, actorId, role, decision, at);
      Green(cfg, reg, s') && |Select(s'.events, IsTerminal)| == 0
  {
    hide SliceInv, Green, ReceiptsValid, ApprovalsConsistent, Phase, Select, ReviewMatches, StatusAfter,
         IsReviewOutcome, ReviewersKnown, NewApproval, ReviewedSlice, RowConsistent, ChainValid, ReviewsConsistent,
         Lifecycle, CanAppend, HasReviewed;
    InvariantParts(cfg, reg, id, s);
    ReviewedParts(cfg, s, actorId, role, decision, at);
    ReviewEventFacts(cfg, s, actorId, role, decision, at);
    ReviewRows(cfg, s, actorId, role, decision, at);
    var s' := ReviewedSlice(cfg, s, actorId, role, decision, at);
    ReviewGreenFrom(cfg, reg, s, s', NewApproval(cfg, s, actorId, role, decision, at), Last(s'.events));
  }

  lemma {:induction false} ReviewPhase(cfg: Config, s: Slice, actorId: string, role: Role, decision: Decision, at: int)
    requires Phase(s) && MayReview(s, actorId, role, at)
    ensures Phase(ReviewedSlice(cfg, s, actorId, role, decision, at))
  {
    ApprovesAll(s.approvals);
  }

  lemma {:induction false} ReviewLifecycle(cfg: Config, id: Id, s: Slice, actorId: string, role: Role,
                                           decision: Decision, at: int)
    requires Lifecycle(cfg, id, s) && MayReview(s, actorId, role, at) && s.observations == []
    requires |Select(ReviewedSlice(cfg, s, actorId, role, decision, at).events, IsTerminal)| == 0
    requires Phase(ReviewedSlice(cfg, s, actorId, role, decision, at))
    ensures Lifecycle(cfg, id, ReviewedSlice(cfg, s, actorId, role, decision, at))
  {
    var s' := ReviewedSlice(cfg, s, actorId, role, decision, at);
    var e := Last(s'.events);
    assert s'.events == s.events + [e] && s'.approvals[|s.approvals|].actorId == actorId;
    assert HasReviewed(s', actorId);
    KnownSnoc(s, s', e);
  }

  lemma {:induction false} ReviewKeeps(cfg: Config, reg: Registry, id: Id, s: Slice, actorId: string, role: Role,
                                       decision: Decision, at: int)
    requires SliceInv(cfg, reg, id, s) && MayReview(s, actorId, role, at)
    ensures SliceInv(cfg, reg, id, ReviewedSlice(cfg, s, actorId, role, decision, at))
  {
    assert s.observations == [] by { assert StateConsistent(cfg, reg, s); }
    ReviewPhase(cfg, s, actorId, role, decision, at);
    ReviewGreen(cfg, reg, id, s, actorId, role, decision, at);
    ReviewLifecycle(cfg, id, s, actorId, role, decision, at);
  }

  // ----- mock observations -----

  lemma {:induction false} LatestIsLast(observations: seq<Observation>)
    requires observations != []
    requires forall i, j :: 0 <= i < j < |observations| ==> observations[i].observedAt <= observations[j].observedAt
    ensures LatestIndex(observations) == |observations| - 1
  {
    if |observations| > 1 { LatestIsLast(observations[..|observations| - 1]); }
  }

  ghost predicate MayObserve(s: Slice, o: Observation) {
    && s.intent.status == AuthorizedNoDispatch && !Frozen(s)
    && o.id != "" && ObservationOk(o.status, o.providerReference)
    && CanAppend(s, o.observedAt)
  }

  lemma {:induction false} NotYetFrozen(observations: seq<Observation>, o: Observation)
    requires observations != [] && !FrozenBefore(observations, |observations| - 1)
    requires !Last(observations).status.InDoubt?
    ensures !FrozenBefore(observations + [o], |observations|)
  {
    var all := observations + [o];
    assert forall j :: 0 <= j < |observations| ==> all[j] == observations[j];
  }

  lemma {:induction false} FrozenPrefix(observations: seq<Observation>, o: Observation, i: nat)
    requires i <= |observations|
    ensures FrozenBefore(observations + [o], i) <==> FrozenBefore(observations, i)
  {
    assert forall j :: 0 <= j < |observations| ==> (observations + [o])[j] == observations[j];
  }

  lemma {:induction false} ObservationRows(s: Slice, o: Observation, events': seq<AuditEvent>, e: AuditEvent)
    requires ObservationsConsistent(s.intent, s.observations, s.events) && ObservedInOrder(s) && MayObserve(s, o)
    requires events' == s.events + [e] && IsObservation(e.body.eventType) && ObservationMatches(e, o)
    ensures ObservationsConsistent(s.intent, s.observations + [o], events')
  {
    hide FrozenBefore, ObservationMatches, ObservationSemanticsValid, Select, LatestIndex;
    SelectSnoc(s.events, e, IsObservation);
    NewObservationValid(s, o);
    var all := s.observations + [o];
    forall i | 0 <= i < |all| ensures !FrozenBefore(all, i) {
      FrozenPrefix(s.observations, o, i);
      if i == |s.observations| {
        if i == 0 { NothingFrozen(s.observations); } else {
          LatestIsLast(s.observations);
          NotYetFrozen(s.observations, o);
        }
      }
    }
  }

  lemma {:induction false} NothingFrozen(observations: seq<Observation>)
    ensures !FrozenBefore(observations, 0)
  {
  }

  lemma {:induction false} NewObservationValid(s: Slice, o: Observation)
    requires MayObserve(s, o)
    ensures ObservationSemanticsValid(s.intent, o)
  {
  }

  lemma {:induction false} ObservationPayloadMatches(o: Observation, e: AuditEvent)
    requires e.body.payload == ObservationPayload(o) && e.body.occurredAt == o.observedAt
    ensures ObservationMatches(e, o)
  {
  }

  lemma {:induction false} ObserveLog(cfg: Config, s: Slice, s': Slice, o: Observation, e: AuditEvent)
    requires s'.intent == s.intent && s'.approvals == s.approvals && s'.events == s.events + [e]
    requires s'.observations == s.observations + [o]
    requires MayObserve(s, o) && ObservedInOrder(s) && |Select(s.events, IsTerminal)| <= 1
    requires IsObservation(e.body.eventType) && ObservationMatches(e, o) && Extends(s.intent, s.intent, s.events, e)
    requires ChainValid(s.intent, s.events) && StatusConsistent(s.intent, s.events)
    requires InitialEventConsistent(cfg, s.intent, s.events) && InitialTenantStateConsistent(cfg, s.events)
    requires ReviewsConsistent(s.approvals, s.events) && ObservationsConsistent(s.intent, s.observations, s.events)
    ensures ChainValid(s'.intent, s'.events) && StatusConsistent(s'.intent, s'.events)
    ensures InitialEventConsistent(cfg, s'.intent, s'.events) && InitialTenantStateConsistent(cfg, s'.events)
    ensures ReviewsConsistent(s'.approvals, s'.events) && ObservationsConsistent(s'.intent, s'.observations, s'.events)
    ensures |Select(s'.events, IsTerminal)| == |Select(s.events, IsTerminal)|
  {
    hide Extends, MayObserve, Select, ChainValid, StatusConsistent, InitialEventConsistent,
         InitialTenantStateConsistent, ReviewsConsistent, ObservationsConsistent, ObservedInOrder, ObservationMatches;
    LogSnoc(cfg, s.intent, s.intent, s.events, e);
    ReviewsSnoc(s.approvals, s.events, e);
    ObservationRows(s, o, s'.events, e);
    StatusSnoc(s.intent, s.intent, s.events, e);
  }

  lemma {:induction false} ObservedFacts(s: Slice, o: Observation, actorId: string)
    requires MayObserve(s, o)
    ensures var s' := ObservedSlice(s, o, actorId);
      && s'.events != []
      && var e := Last(s'.events);
      && s' == s.(observations := s.observations + [o], events := s.events + [e])
      && IsObservation(e.body.eventType) && ObservationMatches(e, o) && Extends(s.intent, s.intent, s.events, e)
  {
    var e := NewEvent(s, DemoMockObservationRecorded, actorId, ObservationPayload(o), o.observedAt);
    ObservationPayloadMatches(o, e);
    hide ObservationPayload, ObservationMatches, Frozen;
    assert Last(ObservedSlice(s, o, actorId).events) == e;
  }

  lemma {:induction false} PhaseStays(s: Slice, s': Slice)
    requires Phase(s) && s'.approvals == s.approvals && s'.intent == s.intent
    ensures Phase(s')
  {
  }

  lemma {:induction false} ObserveGreen(cfg: Config, reg: Registry, id: Id, s: Slice, o: Observation, actorId: string)
    requires SliceInv(cfg, reg, id, s) && MayObserve(s, o)
    ensures var s' := ObservedSlice(s, o, actorId);
      Green(cfg, reg, s') && |Select(s'.events, IsTerminal)| == |Select(s.events, IsTerminal)|
  {
    InvariantParts(cfg, reg, id, s);
    hide SliceInv, Green, ReceiptsValid, ApprovalsConsistent, InitialEventConsistent, InitialTenantStateConsistent,
         ReviewsConsistent, ObservationsConsistent, EnvelopesConsistent, ChainValid, StatusConsistent, RowConsistent,
         IntentHashValid, Select, ReviewersKnown, EnvelopesBind, ObservedInOrder, Frozen;
    ObservedFacts(s, o, actorId);
    assert s.intent.status == AuthorizedNoDispatch;
    var s' := ObservedSlice(s, o, actorId);
    var e := Last(s'.events);
    PhaseStays(s, s');
    hide Phase, ObservedSlice, ObservationMatches, Extends, MayObserve;
    ObserveLog(cfg, s, s', o, e);
    EnvelopesSnoc(cfg, reg, s, s', e);
    GreenAfter(cfg, reg, s, s');
  }

  lemma {:induction false} ObserveLifecycle(cfg: Config, id: Id, s: Slice, o: Observation, actorId: string)
    requires Lifecycle(cfg, id, s) && MayObserve(s, o)
    requires |Select(ObservedSlice(s, o, actorId).events, IsTerminal)| == |Select(s.events, IsTerminal)|
    ensures Lifecycle(cfg, id, ObservedSlice(s, o, actorId))
  {
    var s' := ObservedSlice(s, o, actorId);
    ObservedFacts(s, o, actorId);
    hide ObservationMatches, Extends;
    KnownSnoc(s, s', Last(s'.events));
    ObservedNext(s, o, actorId);
    hide Select, ReviewersKnown, ObservedInOrder, BeforeDeadline, ObservationPayload;
  }

  lemma {:induction false} ObservedNext(s: Slice, o: Observation, actorId: string)
    requires ObservedInOrder(s) && MayObserve(s, o)
    ensures ObservedInOrder(ObservedSlice(s, o, actorId))
  {
    hide ObservationPayload, Frozen, LatestIndex;
  }

  lemma {:induction false} ObserveKeeps(cfg: Config, reg: Registry, id: Id, s: Slice, o: Observation, actorId: string)
    requires SliceInv(cfg, reg, id, s) && MayObserve(s, o)
    ensures SliceInv(cfg, reg, id, ObservedSlice(s, o, actorId))
  {
    ObserveGreen(cfg, reg, id, s, o, actorId);
    ObserveLifecycle(cfg, id, s, o, actorId);
  }
}
