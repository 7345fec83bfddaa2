// The invariant of one intent's evidence, and the proof that creation establishes it
// and every operation keeps it. It is a green report plus the lifecycle facts that
// make the next report green too.
module Invariant {
  import opened Basics
  import opened Evidence
  import opened Integrity
  import opened Operations

  ghost predicate AllApprove(approvals: seq<Approval>, n: int)
    requires n <= |approvals|
  {
    forall i :: 0 <= i < n ==> approvals[i].decision == Approve
  }

  // How many reviews each status has seen, and what they said.
  ghost predicate Phase(s: Slice) {
    var n, required := |s.approvals|, s.intent.requiredApprovals;
    match s.intent.status
    case PolicyDenied => n == 0
    case AwaitingApproval | Cancelled | Expired => AllApprove(s.approvals, n) && n < required
    case AuthorizedNoDispatch => AllApprove(s.approvals, n) && n == required
    case Rejected =>
      n >= 1 && AllApprove(s.approvals, n - 1) && Last(s.approvals).decision == Reject && n - 1 < required
    case OtherStatus(_) => false
  }

  ghost predicate ReviewersKnown(s: Slice) {
    forall k :: 0 <= k < |s.events| && IsReview(s.events[k].body.eventType) ==> HasReviewed(s, s.events[k].body.actorId)
  }

  // Observations were made in row order, none after the latest event.
  ghost predicate ObservedInOrder(s: Slice) {
    && (forall i, j :: 0 <= i < j < |s.observations| ==> s.observations[i].observedAt <= s.observations[j].observedAt)
    && (forall i :: 0 <= i < |s.observations| ==>
          s.events != [] && s.observations[i].observedAt <= Last(s.events).body.occurredAt)
  }

  // An envelope's claims repeat what the service and the intent say.
  ghost predicate ClaimsBind(cfg: Config, s: Slice, c: Claims) {
    && c.issuer == cfg.issuer && c.audience == cfg.audience && c.tenantId == cfg.tenantId
    && c.oidc == cfg.oidc && c.trustDomain == cfg.trustDomain
    && s.intent.policyReasons.Some? && c.snapshot == PayloadFromRow(cfg, s.intent)
    && c.intentDigest == s.intent.intentHash
    && c.policyDigest == OfPolicySnapshot(c.snapshot.policy)
    && c.approvals == EnvelopeApprovals(s) && c.approvalSetDigest == OfApprovalSet(c.approvals)
    && c.exp - c.iat <= cfg.envelopeTtlSeconds
  }

  ghost predicate EnvelopesBind(cfg: Config, s: Slice) {
    && |s.envelopes| <= 1
    && (s.envelopes != map[] ==> s.intent.status == AuthorizedNoDispatch)
    && forall e :: e in s.envelopes ==>
         && s.envelopes[e].intentId == s.intent.id
         && s.envelopes[e].stateVersion == s.intent.stateVersion
         && s.envelopes[e].tenantId == cfg.tenantId
         && s.envelopes[e].compact.Jws? && s.envelopes[e].compact.document.ClaimsDocument?
         && ClaimsBind(cfg, s, s.envelopes[e].compact.document.claims)
  }

  ghost predicate BeforeDeadline(s: Slice) {
    forall k :: 0 <= k < |s.events| ==> s.events[k].body.occurredAt < s.intent.expiresAt
  }

  ghost predicate Lifecycle(cfg: Config, id: Id, s: Slice) {
    && s.intent.id == id && s.intent.createdAt < s.intent.expiresAt
    && |Select(s.events, IsTerminal)| == (if s.intent.status == Cancelled || s.intent.status == Expired then 1 else 0)
    && Phase(s)
    && ReviewersKnown(s)
    && (s.intent.status == AwaitingApproval ==> BeforeDeadline(s))
    && ObservedInOrder(s)
    && EnvelopesBind(cfg, s)
  }

  ghost predicate SliceInv(cfg: Config, reg: Registry, id: Id, s: Slice) {
    Green(cfg, reg, s) && Lifecycle(cfg, id, s)
  }

  // ----- appending one event -----

  lemma {:induction false} ChainSnoc(row: Intent, row': Intent, events: seq<AuditEvent>, e: AuditEvent)
    requires ChainValid(row, events) && row'.id == row.id && row'.createdAt == row.createdAt
    requires e.body.payload.Json? && e.body.intentId == row.id && e.body.previousHash == Tip(events)
    requires e.eventHash == OfEvent(e.body)
    requires row.createdAt <= e.body.occurredAt && (events != [] ==> Last(events).body.occurredAt <= e.body.occurredAt)
    ensures ChainValid(row', events + [e])
  {
    forall i | 0 <= i < |events + [e]| ensures EventValid(row', events + [e], i) {
      if i < |events| { assert EventValid(row, events, i); }
    }
  }

  lemma {:induction false} CountSnoc(marks: seq<bool>, b: bool)
    ensures CountTrue(marks + [b]) == CountTrue(marks) + (if b then 1 else 0)
  {
    assert (marks + [b])[..|marks|] == marks;
  }

  lemma {:induction false} ReviewMarksSnoc(events: seq<AuditEvent>, e: AuditEvent, a: Approval)
    ensures CountTrue(ReviewMarks(events + [e], a))
      == CountTrue(ReviewMarks(events, a)) + (if ReviewMatches(e, a) then 1 else 0)
  {
    assert ReviewMarks(events + [e], a) == ReviewMarks(events, a) + [ReviewMatches(e, a)];
    CountSnoc(ReviewMarks(events, a), ReviewMatches(e, a));
  }

  lemma {:induction false} ReviewsSnoc(approvals: seq<Approval>, events: seq<AuditEvent>, e: AuditEvent)
    requires ReviewsConsistent(approvals, events) && !IsReview(e.body.eventType)
    ensures ReviewsConsistent(approvals, events + [e])
  {
    SelectSnoc(events, e, IsReview);
    forall i | 0 <= i < |approvals| ensures CountTrue(ReviewMarks(events + [e], approvals[i])) == 1 {
      ReviewMarksSnoc(events, e, approvals[i]);
    }
  }

  lemma {:induction false} ObservationsSnoc(row: Intent, row': Intent, observations: seq<Observation>,
                                            events: seq<AuditEvent>, e: AuditEvent)
    requires ObservationsConsistent(row, observations, events) && !IsObservation(e.body.eventType)
    requires row'.createdAt == row.createdAt
    ensures ObservationsConsistent(row', observations, events + [e])
  {
    SelectSnoc(events, e, IsObservation);
    forall i | 0 <= i < |observations| ensures ObservationSemanticsValid(row', observations[i]) {
      assert ObservationSemanticsValid(row, observations[i]);
    }
  }

  lemma {:induction false} IssueMarksSnoc(events: seq<AuditEvent>, e: AuditEvent, eid: Id, env: Envelope, c: Claims)
    ensures CountTrue(IssueMarks(events + [e], eid, env, c))
         == CountTrue(IssueMarks(events, eid, env, c))
           + (if IssueMatches(events + [e], |events|, eid, env, c) then 1 else 0)
  {
    var b := IssueMatches(events + [e], |events|, eid, env, c);
    assert forall i :: 0 <= i < |events| ==> (events + [e])[i] == events[i];
    assert IssueMarks(events + [e], eid, env, c) == IssueMarks(events, eid, env, c) + [b];
    CountSnoc(IssueMarks(events, eid, env, c), b);
  }

  lemma {:induction false} ConsumeMarksSnoc(events: seq<AuditEvent>, e: AuditEvent, eid: Id, env: Envelope)
    ensures CountTrue(ConsumeMarks(events + [e], eid, env))
         == CountTrue(ConsumeMarks(events, eid, env)) + (if ConsumeMatches(e.body, eid, env) then 1 else 0)
  {
    assert ConsumeMarks(events + [e], eid, env) == ConsumeMarks(events, eid, env) + [ConsumeMatches(e.body, eid, env)];
    CountSnoc(ConsumeMarks(events, eid, env), ConsumeMatches(e.body, eid, env));
  }

  lemma {:induction false} EnvelopeSnoc(cfg: Config, reg: Registry, id: Id, events: seq<AuditEvent>, e: AuditEvent,
                                        eid: Id, env: Envelope)
    requires EnvelopeValid(cfg, reg, id, events, eid, env)
    requires !IsIssue(e.body.eventType) && !IsConsume(e.body.eventType)
    ensures EnvelopeValid(cfg, reg, id, events + [e], eid, env)
  {
    var c := VerifiedClaims(cfg, reg, env.keyId, env.compact).value;
    IssueMarksSnoc(events, e, eid, env, c);
    ConsumeMarksSnoc(events, e, eid, env);
  }

  lemma {:induction false} EnvelopesSnoc(cfg: Config, reg: Registry, s: Slice, s': Slice, e: AuditEvent)
    requires EnvelopesConsistent(cfg, reg, s)
    requires !IsIssue(e.body.eventType) && !IsConsume(e.body.eventType)
    requires s'.events == s.events + [e] && s'.envelopes == s.envelopes && s'.intent.id == s.intent.id
    ensures EnvelopesConsistent(cfg, reg, s')
  {
    SelectSnoc(s.events, e, IsIssue);
    SelectSnoc(s.events, e, IsConsume);
    forall eid | eid in s'.envelopes ensures EnvelopeValid(cfg, reg, s'.intent.id, s'.events, eid, s'.envelopes[eid]) {
      EnvelopeSnoc(cfg, reg, s.intent.id, s.events, e, eid, s.envelopes[eid]);
    }
  }

  lemma {:induction false} StatusSnoc(row: Intent, row': Intent, events: seq<AuditEvent>, e: AuditEvent)
    requires StatusConsistent(row, events)
    requires IsReview(e.body.eventType) ==> IsReviewOutcome(Get(e.body.payload, ResultingStatusField))
    requires StatusAfter(Some(row.status), e.body) == Some(row'.status)
    requires |Select(events, IsTerminal)| + (if IsTerminal(e.body.eventType) then 1 else 0) <= 1
    requires row'.stateVersion
      == row.stateVersion + (if IsReview(e.body.eventType) || IsTerminal(e.body.eventType) then 1 else 0)
    ensures StatusConsistent(row', events + [e])
    ensures |Select(events + [e], IsTerminal)|
      == |Select(events, IsTerminal)| + (if IsTerminal(e.body.eventType) then 1 else 0)
  {
    AuditedStatusSnoc(events, e);
    SelectSnoc(events, e, IsTerminal);
    SelectSnoc(events, e, IsReview);
    assert OutcomesValid(events + [e]) by {
      forall i | 0 <= i < |events + [e]| && IsReview((events + [e])[i].body.eventType)
        ensures IsReviewOutcome(Get((events + [e])[i].body.payload, ResultingStatusField))
      {
        if i < |events| { assert (events + [e])[i] == events[i]; }
      }
    }
  }

  lemma {:induction false} InitialSnoc(cfg: Config, row: Intent, row': Intent, events: seq<AuditEvent>, e: AuditEvent)
    requires InitialEventConsistent(cfg, row, events) && InitialTenantStateConsistent(cfg, events)
    requires row' == row.(status := row'.status, stateVersion := row'.stateVersion)
    ensures InitialEventConsistent(cfg, row', events + [e]) && InitialTenantStateConsistent(cfg, events + [e])
  {
    assert (events + [e])[0] == events[0];
  }

  // An appended event that fits the chain, and a row that moved at most its status and version.
  ghost predicate Extends(row: Intent, row': Intent, events: seq<AuditEvent>, e: AuditEvent) {
    && row' == row.(status := row'.status, stateVersion := row'.stateVersion)
    && e.body.payload.Json? && e.body.intentId == row.id
    && e.body.previousHash == Tip(events) && e.eventHash == OfEvent(e.body)
    && row.createdAt <= e.body.occurredAt && (events != [] ==> Last(events).body.occurredAt <= e.body.occurredAt)
  }

  lemma {:induction false} LogSnoc(cfg: Config, row: Intent, row': Intent, events: seq<AuditEvent>, e: AuditEvent)
    requires Extends(row, row', events, e) && ChainValid(row, events)
    requires InitialEventConsistent(cfg, row, events) && InitialTenantStateConsistent(cfg, events)
    ensures ChainValid(row', events + [e])
    ensures InitialEventConsistent(cfg, row', events + [e]) && InitialTenantStateConsistent(cfg, events + [e])
  {
    hide ChainValid, InitialEventConsistent, InitialTenantStateConsistent;
    ChainSnoc(row, row', events, e);
    InitialSnoc(cfg, row, row', events, e);
  }

  // ----- counts of valid rows -----

  lemma {:induction false} AllValidCounts(cfg: Config, row: Intent, approvals: seq<Approval>, n: nat)
    requires n <= |approvals|
    requires ReceiptsValid(cfg, row, approvals) && ApprovalsConsistent(row, approvals)
    requires AllApprove(approvals, n)
    ensures ValidCount(cfg, row, approvals, n, Approve) == n && ValidCount(cfg, row, approvals, n, Reject) == 0
  {
    if n > 0 {
      AllValidCounts(cfg, row, approvals, n - 1);
      assert ReceiptValid(cfg, row, approvals[n - 1]) && SemanticsValid(row, approvals, n - 1);
    }
  }

  // The phase of the lifecycle is what the threshold rules ask for.
  lemma {:induction false} PhaseMeetsThreshold(cfg: Config, s: Slice)
    requires RowConsistent(cfg, s.intent) && Phase(s)
    requires s.intent.policyAllowed <==> s.intent.status != PolicyDenied
    requires ReceiptsValid(cfg, s.intent, s.approvals) && ApprovalsConsistent(s.intent, s.approvals)
    requires s.observations != [] ==> s.intent.status == AuthorizedNoDispatch
    ensures ThresholdConsistent(s.intent, |s.approvals|,
                                ValidCount(cfg, s.intent, s.approvals, |s.approvals|, Approve),
                                ValidCount(cfg, s.intent, s.approvals, |s.approvals|, Reject),
                                |s.observations|)
  {
    var n := |s.approvals|;
    if s.intent.status == Rejected {
      AllValidCounts(cfg, s.intent, s.approvals, n - 1);
      assert ReceiptValid(cfg, s.intent, s.approvals[n - 1]) && SemanticsValid(s.intent, s.approvals, n - 1);
    } else {
      AllValidCounts(cfg, s.intent, s.approvals, n);
    }
  }

  lemma {:induction false} ApprovesAll(approvals: seq<Approval>)
    requires AllApprove(approvals, |approvals|)
    ensures Approves(approvals) == |approvals|
  {
    if approvals != [] {
      var init := approvals[..|approvals| - 1];
      assert forall i :: 0 <= i < |init| ==> init[i] == approvals[i];
      ApprovesAll(init);
    }
  }

  // A change of status and version leaves every approval as valid as it was.
  lemma {:induction false} ApprovalsSurvive(cfg: Config, row: Intent, row': Intent, approvals: seq<Approval>)
    requires ReceiptsValid(cfg, row, approvals) && ApprovalsConsistent(row, approvals)
    requires row' == row.(status := row'.status, stateVersion := row'.stateVersion)
    ensures ReceiptsValid(cfg, row', approvals) && ApprovalsConsistent(row', approvals)
  {
    forall i | 0 <= i < |approvals|
      ensures ReceiptValid(cfg, row', approvals[i]) && SemanticsValid(row', approvals, i)
    {
      assert ReceiptValid(cfg, row, approvals[i]) && SemanticsValid(row, approvals, i);
    }
  }

  // The parts of the invariant, each under its own name.
  lemma {:induction false} InvariantParts(cfg: Config, reg: Registry, id: Id, s: Slice)
    requires SliceInv(cfg, reg, id, s)
    ensures Green(cfg, reg, s) && Lifecycle(cfg, id, s)
    ensures RowConsistent(cfg, s.intent) && IntentHashValid(cfg, s.intent) && s.intent.id == id
    ensures s.intent.createdAt < s.intent.expiresAt
    ensures ReceiptsValid(cfg, s.intent, s.approvals) && ApprovalsConsistent(s.intent, s.approvals)
    ensures ChainValid(s.intent, s.events) && StatusConsistent(s.intent, s.events)
    ensures InitialEventConsistent(cfg, s.intent, s.events) && InitialTenantStateConsistent(cfg, s.events)
    ensures ReviewsConsistent(s.approvals, s.events) && ObservationsConsistent(s.intent, s.observations, s.events)
    ensures EnvelopesConsistent(cfg, reg, s) && EnvelopesBind(cfg, s) && Phase(s) && ReviewersKnown(s)
    ensures ObservedInOrder(s)
    ensures |Select(s.events, IsTerminal)|
      == (if s.intent.status == Cancelled || s.intent.status == Expired then 1 else 0)
    ensures s.intent.policyAllowed <==> s.intent.status != PolicyDenied
    ensures s.observations != [] ==> s.intent.status == AuthorizedNoDispatch
    ensures s.envelopes != map[] ==> s.intent.status == AuthorizedNoDispatch
  {
    hide ReceiptsValid, RowConsistent, ApprovalsConsistent, InitialEventConsistent, InitialTenantStateConsistent,
         ReviewsConsistent, ObservationsConsistent, EnvelopesConsistent, StatusConsistent, IntentHashValid, ChainValid,
         Select, ValidCount, Phase, ReviewersKnown, BeforeDeadline, ObservedInOrder;
  }
}
