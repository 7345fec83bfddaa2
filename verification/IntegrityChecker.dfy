// verifyIntegrity: the loops that recompute one intent's evidence, proved equal to
// the predicates of Integrity.dfy. The four flags and the failure list are the report.
module IntegrityChecker {
  import opened Basics
  import opened Evidence
  import opened Integrity

  datatype Failure =
    | IntentPayloadInvalid | IntentHashMismatch
    | TenantContextMismatch | IntentStatusInvalid | InitialStatusPolicyMismatch
    | RequiredApprovalsInvalid | RulesVersionInvalid
    | PolicyReasonsInvalid | PolicyReasonsDuplicated | PolicyApprovalReasonMismatch | PolicyAllowedReasonsMismatch
    | ApprovalReceiptInvalid(actor: string) | ApprovalSemanticsInvalid(actor: string)
    | AuditPayloadInvalid(position: nat) | AuditChainInvalid(position: nat) | AuditChronologyInvalid(position: nat)
    | InitialAuditPolicyMismatch | InitialAuditTenantStateMismatch
    | ApprovalAuditCountMismatch | ApprovalAuditMismatch(actor: string)
    | ObservationAuditCountMismatch | ObservationAfterInDoubt(observation: Id)
    | ObservationSemanticsInvalid(observation: Id) | ObservationAuditMismatch(observation: Id)
    | EnvelopeAuditCountMismatch | EnvelopeIntegrityInvalid(envelope: Id) | EnvelopeConsumptionAuditCountMismatch
    | AuditResultingStatusInvalid(position: nat) | StatusAuditMismatch | MultipleTerminalStateEvents
    | AuthorizationStateVersionMismatch
    | DeniedPolicyStatusMismatch | AllowedPolicyStatusMismatch | DeniedIntentHasApprovals
    | AwaitingApprovalStateMismatch | AuthorizedApprovalThresholdNotMet | RejectedStateMismatch
    | TerminalStateApprovalMismatch | ObservationWithoutAuthorizedState

  datatype IntegrityReport = IntegrityReport(
    valid: bool,
    intentHashValid: bool,
    approvalReceiptsValid: bool,
    auditChainValid: bool,
    stateConsistencyValid: bool,
    failures: seq<Failure>)

  // addFailure: append unless already listed.
  function Add(failures: seq<Failure>, f: Failure): (after: seq<Failure>)
    requires AllDistinct(failures)
    ensures AllDistinct(after) && f in after && failures <= after
  {
    if f in failures then failures else failures + [f]
  }

  // One section of the check: it lists nothing when it passes and something when it fails.
  ghost predicate Noted(before: seq<Failure>, after: seq<Failure>, ok: bool) {
    && AllDistinct(after) && before <= after
    && (ok ==> after == before) && (!ok ==> after != [])
  }

  method AddIf(bad: bool, f: Failure, ok: bool, failures: seq<Failure>) returns (ok': bool, after: seq<Failure>)
    requires AllDistinct(failures)
    ensures ok' == (ok && !bad)
    ensures Noted(failures, after, !bad)
  {
    if bad { return false, Add(failures, f); }
    return ok, failures;
  }

  method CheckIntentHash(cfg: Config, row: Intent, before: seq<Failure>) returns (ok: bool, failures: seq<Failure>)
    requires AllDistinct(before)
    ensures ok == IntentHashValid(cfg, row) && Noted(before, failures, ok)
  {
    failures := before;
    if row.policyReasons.None? {
      ok := false;
      failures := Add(failures, IntentPayloadInvalid);
    } else {
      ok := OfIntent(PayloadFromRow(cfg, row)) == row.intentHash;
    }
    if !ok { failures := Add(failures, IntentHashMismatch); }
  }

  method Partition(reasons: seq<Reason>) returns (approving: seq<Reason>, denying: seq<Reason>)
    ensures approving == Approving(reasons) && denying == Denying(reasons)
  {
    approving, denying := [], [];
    var i := |reasons|;
    while i > 0
      invariant 0 <= i <= |reasons|
      invariant approving == Approving(reasons[i..]) && denying == Denying(reasons[i..])
    {
      i := i - 1;
      assert reasons[i..][1..] == reasons[i + 1..];
      if IsApprovalReason(reasons[i]) {
        approving := [reasons[i]] + approving;
      } else {
        denying := [reasons[i]] + denying;
      }
    }
    assert reasons[0..] == reasons;
  }

  method CheckReasons(row: Intent, reasons: seq<Reason>, before: seq<Failure>)
    returns (ok: bool, failures: seq<Failure>)
    requires AllDistinct(before)
    ensures ok == ReasonsConsistent(row, reasons) && Noted(before, failures, ok)
  {
    ok, failures := true, before;
    ok, failures := AddIf(!AllDistinct(reasons), PolicyReasonsDuplicated, ok, failures);
    var approving, denying := Partition(reasons);
    var expected := ApprovalReason(row.requiredApprovals);
    ok, failures := AddIf(|approving| != 1 || approving[0] != expected, PolicyApprovalReasonMismatch, ok, failures);
    ok, failures := AddIf((row.policyAllowed && |denying| != 0) || (!row.policyAllowed && |denying| == 0),
                          PolicyAllowedReasonsMismatch, ok, failures);
  }

  method CheckRow(cfg: Config, row: Intent, before: seq<Failure>) returns (ok: bool, failures: seq<Failure>)
    requires AllDistinct(before)
    ensures ok == RowConsistent(cfg, row) && Noted(before, failures, ok)
  {
    ok, failures := true, before;
    ok, failures := AddIf(row.tenantId != cfg.tenantId, TenantContextMismatch, ok, failures);
    ok, failures := AddIf(row.status.OtherStatus?, IntentStatusInvalid, ok, failures);
    ok, failures :=
      AddIf(row.initialStatus != InitialStatus(row.policyAllowed), InitialStatusPolicyMismatch, ok, failures);
    ok, failures :=
      AddIf(row.requiredApprovals != 1 && row.requiredApprovals != 2, RequiredApprovalsInvalid, ok, failures);
    ok, failures := AddIf(|row.rulesVersion| == 0, RulesVersionInvalid, ok, failures);
    if row.policyReasons.None? || !row.policyReasons.value.Listed? {
      ok, failures := false, Add(failures, PolicyReasonsInvalid);
    } else {
      var good;
      good, failures := CheckReasons(row, row.policyReasons.value.reasons, failures);
      ok := ok && good;
    }
  }

  method CheckApproval(cfg: Config, row: Intent, approvals: seq<Approval>, i: nat, seen: set<string>)
    returns (receiptValid: bool, semanticValid: bool)
    requires i < |approvals| && seen == set j | 0 <= j < i :: approvals[j].actorId
    ensures receiptValid == ReceiptValid(cfg, row, approvals[i])
    ensures semanticValid == SemanticsValid(row, approvals, i)
  {
    var a := approvals[i];
    var actorIsDistinct := a.actorId !in seen;
    assert actorIsDistinct == !Repeated(approvals, i);
    receiptValid := a.receipt == Receipt(cfg, row.id, a) && a.intentHash == row.intentHash;
    semanticValid :=
      |a.actorId| > 0 && a.actorId != row.agentId && (a.actorRole == Approver || a.actorRole == Admin)
      && a.createdAt >= row.createdAt && a.createdAt < row.expiresAt && actorIsDistinct;
  }

  method CheckApprovals(cfg: Config, row: Intent, approvals: seq<Approval>, before: seq<Failure>)
    returns (receiptsOk: bool, ok: bool, approves: nat, rejects: nat, failures: seq<Failure>)
    requires AllDistinct(before)
    ensures receiptsOk == ReceiptsValid(cfg, row, approvals) && ok == ApprovalsConsistent(row, approvals)
    ensures approves == ValidCount(cfg, row, approvals, |approvals|, Approve)
    ensures rejects == ValidCount(cfg, row, approvals, |approvals|, Reject)
    ensures Noted(before, failures, receiptsOk && ok)
  {
    hide ReceiptValid, SemanticsValid;
    receiptsOk, ok, approves, rejects, failures := true, true, 0, 0, before;
    var seen: set<string> := {};
    var i := 0;
    while i < |approvals|
      invariant 0 <= i <= |approvals|
      invariant seen == set j | 0 <= j < i :: approvals[j].actorId
      invariant receiptsOk == forall j :: 0 <= j < i ==> ReceiptValid(cfg, row, approvals[j])
      invariant ok == forall j :: 0 <= j < i ==> SemanticsValid(row, approvals, j)
      invariant approves == ValidCount(cfg, row, approvals, i, Approve)
      invariant rejects == ValidCount(cfg, row, approvals, i, Reject)
      invariant Noted(before, failures, receiptsOk && ok)
    {
      var receiptValid, semanticValid := CheckApproval(cfg, row, approvals, i, seen);
      seen := seen + {approvals[i].actorId};
      if !receiptValid {
        receiptsOk, failures := false, Add(failures, ApprovalReceiptInvalid(approvals[i].actorId));
      }
      if !semanticValid {
        ok, failures := false, Add(failures, ApprovalSemanticsInvalid(approvals[i].actorId));
      }
      if receiptValid && semanticValid {
        if approvals[i].decision == Approve { approves := approves + 1; } else { rejects := rejects + 1; }
      }
      i := i + 1;
    }
  }

  method CheckEvent(row: Intent, events: seq<AuditEvent>, i: nat, previousHash: Digest, previousAt: Option<int>,
                    before: seq<Failure>)
    returns (ok: bool, failures: seq<Failure>)
    requires i < |events| && AllDistinct(before)
    requires previousHash == PreviousHash(events, i)
    requires previousAt == (if i == 0 then None else Some(events[i - 1].body.occurredAt))
    ensures ok == EventValid(row, events, i) && Noted(before, failures, ok)
  {
    ok, failures := true, before;
    var e := events[i];
    ok, failures := AddIf(e.body.payload.Unparseable?, AuditPayloadInvalid(i), ok, failures);
    ok, failures :=
      AddIf(e.body.intentId != row.id || e.body.previousHash != previousHash || e.eventHash != OfEvent(e.body),
                          AuditChainInvalid(i), ok, failures);
    ok, failures :=
      AddIf(e.body.occurredAt < row.createdAt || (previousAt.Some? && e.body.occurredAt < previousAt.value),
                          AuditChronologyInvalid(i), ok, failures);
  }

  method CheckChain(row: Intent, events: seq<AuditEvent>, before: seq<Failure>)
    returns (ok: bool, failures: seq<Failure>)
    requires AllDistinct(before)
    ensures ok == ChainValid(row, events) && Noted(before, failures, ok)
  {
    ok, failures := true, before;
    var previousHash := Genesis;
    var previousAt: Option<int> := None;
    var i := 0;
    while i < |events|
      invariant 0 <= i <= |events|
      invariant previousHash == (if i == 0 then Genesis else events[i - 1].eventHash)
      invariant previousAt == (if i == 0 then None else Some(events[i - 1].body.occurredAt))
      invariant ok == forall j :: 0 <= j < i ==> EventValid(row, events, j)
      invariant Noted(before, failures, ok)
    {
      var good;
      good, failures := CheckEvent(row, events, i, previousHash, previousAt, failures);
      ok := ok && good;
      previousHash := events[i].eventHash;
      previousAt := Some(events[i].body.occurredAt);
      i := i + 1;
    }
  }

  // events.filter(kind): same list as Select.
  method FilterEvents(events: seq<AuditEvent>, kind: EventType -> bool) returns (selected: seq<AuditEvent>)
    ensures selected == Select(events, kind)
  {
    selected := [];
    var i := 0;
    while i < |events|
      invariant 0 <= i <= |events|
      invariant selected == Select(events[..i], kind)
    {
      assert events[..i + 1] == events[..i] + [events[i]];
      SelectSnoc(events[..i], events[i], kind);
      if kind(events[i].body.eventType) { selected := selected + [events[i]]; }
      i := i + 1;
    }
    assert events[..i] == events;
  }

  method CountMarks(marks: seq<bool>) returns (count: nat)
    ensures count == CountTrue(marks)
  {
    count := 0;
    var i := 0;
    while i < |marks|
      invariant 0 <= i <= |marks|
      invariant count == CountTrue(marks[..i])
    {
      assert marks[..i + 1][..i] == marks[..i];
      if marks[i] { count := count + 1; }
      i := i + 1;
    }
    assert marks[..i] == marks;
  }

  method CheckReviews(approvals: seq<Approval>, events: seq<AuditEvent>, reviewCount: nat, before: seq<Failure>)
    returns (ok: bool, failures: seq<Failure>)
    requires AllDistinct(before) && reviewCount == |Select(events, IsReview)|
    ensures ok == ReviewsConsistent(approvals, events) && Noted(before, failures, ok)
  {
    ok, failures := true, before;
    ok, failures := AddIf(reviewCount != |approvals|, ApprovalAuditCountMismatch, ok, failures);
    var i := 0;
    while i < |approvals|
      invariant 0 <= i <= |approvals|
      invariant ok == (reviewCount == |approvals|
                       && forall j :: 0 <= j < i ==> CountTrue(ReviewMarks(events, approvals[j])) == 1)
      invariant Noted(before, failures, ok)
    {
      var matches := CountMarks(ReviewMarks(events, approvals[i]));
      if matches != 1 {
        ok, failures := false, Add(failures, ApprovalAuditMismatch(approvals[i].actorId));
      }
      i := i + 1;
    }
  }

  // One observation row against its event and the rows before it.
  predicate RowFits(row: Intent, observations: seq<Observation>, events: seq<AuditEvent>, i: nat)
    requires i < |observations|
  {
    && !FrozenBefore(observations, i)
    && ObservationSemanticsValid(row, observations[i])
    && i < |events| && ObservationMatches(events[i], observations[i])
  }

  lemma {:induction false} AllRowsFit(row: Intent, observations: seq<Observation>, events: seq<AuditEvent>)
    ensures var matching := Select(events, IsObservation);
      ObservationsConsistent(row, observations, events)
      <==> |matching| == |observations|
           && forall i :: 0 <= i < |observations| ==> RowFits(row, observations, matching, i)
  {
    hide FrozenBefore, ObservationSemanticsValid, ObservationMatches, Select;
    var matching := Select(events, IsObservation);
    if |matching| == |observations| && forall i :: 0 <= i < |observations| ==> RowFits(row, observations, matching, i) {
      forall i | 0 <= i < |observations|
        ensures !FrozenBefore(observations, i) && ObservationSemanticsValid(row, observations[i])
        ensures ObservationMatches(matching[i], observations[i])
      {
        assert RowFits(row, observations, matching, i);
      }
    }
  }

  method CheckObservations(row: Intent, observations: seq<Observation>, events: seq<AuditEvent>, before: seq<Failure>)
    returns (ok: bool, failures: seq<Failure>)
    requires AllDistinct(before)
    ensures ok == ObservationsConsistent(row, observations, events) && Noted(before, failures, ok)
  {
    hide ObservationMatches, AllDistinct, Select, ObservationsConsistent;
    AllRowsFit(row, observations, events);
    ok, failures := true, before;
    var observationEvents := FilterEvents(events, IsObservation);
    ok, failures := AddIf(|observations| != |observationEvents|, ObservationAuditCountMismatch, ok, failures);
    var frozen := false;
    var i := 0;
    while i < |observations|
      invariant 0 <= i <= |observations|
      invariant frozen == FrozenBefore(observations, i)
      invariant ok == (|observationEvents| == |observations|
                       && forall j :: 0 <= j < i ==> RowFits(row, observations, observationEvents, j))
      invariant Noted(before, failures, ok)
    {
      var o := observations[i];
      var good := true;
      if frozen { good, failures := false, Add(failures, ObservationAfterInDoubt(o.id)); }
      if o.status.InDoubt? { frozen := true; }
      if |o.id| == 0 || o.status.OtherObservation? || o.observedAt < row.createdAt
         || (o.providerReference.Some? && (|o.providerReference.value| == 0 || |o.providerReference.value| > 200)) {
        good, failures := false, Add(failures, ObservationSemanticsInvalid(o.id));
      }
      if i >= |observationEvents| || !ObservationMatches(observationEvents[i], o) {
        good, failures := false, Add(failures, ObservationAuditMismatch(o.id));
      }
      assert good == RowFits(row, observations, observationEvents, i);
      ok := ok && good;
      i := i + 1;
    }
  }

  // validatedEnvelopeSigningKeyRows: every row attested, and the checkpoint covers them all.
  method CheckRegistry(cfg: Config, reg: Registry) returns (ok: bool)
    ensures ok == RegistryValid(cfg, reg)
  {
    var todo := reg.rows.Keys;
    while todo != {}
      invariant todo <= reg.rows.Keys
      invariant forall k :: k in reg.rows && k !in todo ==> KeyAttested(cfg, k, reg.rows[k])
    {
      var k :| k in todo;
      if !KeyAttested(cfg, k, reg.rows[k]) { return false; }
      todo := todo - {k};
    }
    ok := reg.checkpoint == Some(Hmac(cfg.receiptSecret, RegistryState(reg.rows)));
  }

  method VerifyClaims(cfg: Config, reg: Registry, keyId: string, compact: CompactJws) returns (claims: Option<Claims>)
    ensures claims == VerifiedClaims(cfg, reg, keyId, compact)
  {
    claims := None;
    var trusted := CheckRegistry(cfg, reg);
    if trusted && keyId in reg.rows {
      if SignatureVerifies(compact, reg.rows[keyId].jwk) && compact.document.ClaimsDocument? {
        if StrictClaims(compact.document.claims) { claims := Some(compact.document.claims); }
      }
    }
  }

  method CheckEnvelope(cfg: Config, reg: Registry, id: Id, events: seq<AuditEvent>, eid: Id, env: Envelope)
    returns (ok: bool, read: bool)
    ensures ok == EnvelopeValid(cfg, reg, id, events, eid, env) && (ok ==> read)
  {
    var claims := VerifyClaims(cfg, reg, env.keyId, env.compact);
    read := claims.Some?;
    if !read { return false, false; }
    var c := claims.value;
    var issues := CountMarks(IssueMarks(events, eid, env, c));
    var consumes := CountMarks(ConsumeMarks(events, eid, env));
    ok := c.jti == eid && c.snapshot.id == id
          && c.tenantId == env.tenantId && c.audience == env.audience
          && c.authorizationStateVersion == env.stateVersion
          && env.compact.kid == env.keyId
          && env.claimsHash == OfClaims(c) && env.nonceHash == OfText(c.nonce)
          && c.issuedAt == env.issuedAt && Seconds(env.issuedAt) == c.iat
          && c.exp * 1000 == env.expiresAt
          && ConsumptionColumnsConsistent(env)
          && issues == 1
          && consumes == (if env.consumedAt.Some? then 1 else 0);
  }

  lemma {:induction false} NoneMissing(envelopes: map<Id, Envelope>)
    ensures |Consumed(envelopes) - envelopes.Keys| == 0
  {
    assert Consumed(envelopes) - envelopes.Keys == {};
  }

  lemma {:induction false} OneFewer(envelopes: map<Id, Envelope>, todo: set<Id>, e: Id)
    requires e in envelopes && e in todo
    ensures |Consumed(envelopes) - (todo - {e})|
      == |Consumed(envelopes) - todo| + (if envelopes[e].consumedAt.Some? then 1 else 0)
  {
    assert Consumed(envelopes) - (todo - {e})
      == (Consumed(envelopes) - todo) + (if envelopes[e].consumedAt.Some? then {e} else {});
  }

  // The row loop: which envelopes hold, and how many of those that could be read were consumed.
  method CheckEnvelopeRows(cfg: Config, reg: Registry, s: Slice, before: seq<Failure>)
    returns (ok: bool, consumed: nat, failures: seq<Failure>)
    requires AllDistinct(before)
    ensures ok == forall e :: e in s.envelopes ==> EnvelopeValid(cfg, reg, s.intent.id, s.events, e, s.envelopes[e])
    ensures (ok ==> consumed == |Consumed(s.envelopes)|) && Noted(before, failures, ok)
  {
    hide EnvelopeValid, Consumed, AllDistinct;
    NoneMissing(s.envelopes);
    ok, failures, consumed := true, before, 0;
    var todo := s.envelopes.Keys;
    while todo != {}
      invariant todo <= s.envelopes.Keys && (ok ==> consumed == |Consumed(s.envelopes) - todo|)
      invariant ok == forall e :: e in s.envelopes && e !in todo ==>
        EnvelopeValid(cfg, reg, s.intent.id, s.events, e, s.envelopes[e])
      invariant Noted(before, failures, ok)
    {
      var e :| e in todo;
      OneFewer(s.envelopes, todo, e);
      var good, read := CheckEnvelope(cfg, reg, s.intent.id, s.events, e, s.envelopes[e]);
      if read && s.envelopes[e].consumedAt.Some? { consumed := consumed + 1; }
      if !good { ok, failures := false, Add(failures, EnvelopeIntegrityInvalid(e)); }
      todo := todo - {e};
    }
    assert Consumed(s.envelopes) - {} == Consumed(s.envelopes);
  }

  method CheckEnvelopes(cfg: Config, reg: Registry, s: Slice, before: seq<Failure>)
    returns (ok: bool, failures: seq<Failure>)
    requires AllDistinct(before)
    ensures ok == EnvelopesConsistent(cfg, reg, s) && Noted(before, failures, ok)
  {
    ok, failures := true, before;
    var issueEvents := FilterEvents(s.events, IsIssue);
    var consumeEvents := FilterEvents(s.events, IsConsume);
    ok, failures := AddIf(|issueEvents| != |s.envelopes|, EnvelopeAuditCountMismatch, ok, failures);
    var good, consumed;
    good, consumed, failures := CheckEnvelopeRows(cfg, reg, s, failures);
    ok := ok && good;
    ok, failures := AddIf(|consumeEvents| != consumed, EnvelopeConsumptionAuditCountMismatch, ok, failures);
  }

  method CheckStatus(row: Intent, events: seq<AuditEvent>, reviewCount: nat, before: seq<Failure>)
    returns (ok: bool, failures: seq<Failure>)
    requires AllDistinct(before) && reviewCount == |Select(events, IsReview)|
    ensures ok == StatusConsistent(row, events) && Noted(before, failures, ok)
  {
    ok, failures := true, before;
    var audited: Option<Status> := None;
    var i := 0;
    while i < |events|
      invariant 0 <= i <= |events|
      invariant audited == AuditedStatus(events[..i])
      invariant ok == forall j :: 0 <= j < i && IsReview(events[j].body.eventType) ==>
        IsReviewOutcome(Get(events[j].body.payload, ResultingStatusField))
      invariant Noted(before, failures, ok)
    {
      var body := events[i].body;
      assert events[..i + 1] == events[..i] + [events[i]];
      AuditedStatusSnoc(events[..i], events[i]);
      match body.eventType {
      case ProposalCreated => audited := Some(AwaitingApproval);
      case ProposalPolicyDenied => audited := Some(PolicyDenied);
      case ProposalCancelled => audited := Some(Cancelled);
      case ProposalExpired => audited := Some(Expired);
      case HumanApprovalRecorded | HumanRejectionRecorded =>
        var outcome := Get(body.payload, ResultingStatusField);
        if IsReviewOutcome(outcome) {
          audited := Some(outcome.status);
        } else {
          ok, failures := false, Add(failures, AuditResultingStatusInvalid(i));
        }
      case _ =>
      }
      i := i + 1;
    }
    assert events[..i] == events;
    ok, failures := AddIf(audited != Some(row.status), StatusAuditMismatch, ok, failures);
    var terminal := FilterEvents(events, IsTerminal);
    ok, failures := AddIf(|terminal| > 1, MultipleTerminalStateEvents, ok, failures);
    ok, failures :=
      AddIf(row.stateVersion != 1 + reviewCount + |terminal|, AuthorizationStateVersionMismatch, ok, failures);
  }

  method CheckThreshold(row: Intent, approvalRows: nat, approves: nat, rejects: nat, observationRows: nat,
                        before: seq<Failure>)
    returns (ok: bool, failures: seq<Failure>)
    requires AllDistinct(before)
    ensures ok == ThresholdConsistent(row, approvalRows, approves, rejects, observationRows)
    ensures Noted(before, failures, ok)
  {
    ok, failures := true, before;
    ok, failures := AddIf(!row.policyAllowed && row.status != PolicyDenied, DeniedPolicyStatusMismatch, ok, failures);
    ok, failures := AddIf(row.policyAllowed && row.status == PolicyDenied, AllowedPolicyStatusMismatch, ok, failures);
    ok, failures := AddIf(row.status == PolicyDenied && approvalRows != 0, DeniedIntentHasApprovals, ok, failures);
    match row.status {
    case AwaitingApproval =>
      ok, failures :=
        AddIf(rejects != 0 || approves >= row.requiredApprovals, AwaitingApprovalStateMismatch, ok, failures);
    case AuthorizedNoDispatch =>
      ok, failures := AddIf(!row.policyAllowed || rejects != 0 || approves < row.requiredApprovals,
                            AuthorizedApprovalThresholdNotMet, ok, failures);
    case Rejected =>
      ok, failures := AddIf(!row.policyAllowed || rejects != 1 || approves >= row.requiredApprovals,
                            RejectedStateMismatch, ok, failures);
    case Cancelled | Expired =>
      ok, failures := AddIf(!row.policyAllowed || rejects != 0 || approves >= row.requiredApprovals,
                            TerminalStateApprovalMismatch, ok, failures);
    case _ =>
    }
    ok, failures := AddIf(observationRows > 0 && row.status != AuthorizedNoDispatch,
                          ObservationWithoutAuthorizedState, ok, failures);
  }

  method CheckState(cfg: Config, reg: Registry, s: Slice, approves: nat, rejects: nat, before: seq<Failure>)
    returns (ok: bool, failures: seq<Failure>)
    requires AllDistinct(before)
    requires approves == ValidCount(cfg, s.intent, s.approvals, |s.approvals|, Approve)
    requires rejects == ValidCount(cfg, s.intent, s.approvals, |s.approvals|, Reject)
    ensures Noted(before, failures, ok)
    ensures ok == (InitialEventConsistent(cfg, s.intent, s.events)
                   && InitialTenantStateConsistent(cfg, s.events)
                   && ReviewsConsistent(s.approvals, s.events)
                   && ObservationsConsistent(s.intent, s.observations, s.events)
                   && EnvelopesConsistent(cfg, reg, s)
                   && StatusConsistent(s.intent, s.events)
                   && ThresholdConsistent(s.intent, |s.approvals|, approves, rejects, |s.observations|))
  {
    ok, failures := true, before;
    ok, failures := AddIf(!InitialEventConsistent(cfg, s.intent, s.events), InitialAuditPolicyMismatch, ok, failures);
    ok, failures := AddIf(!InitialTenantStateConsistent(cfg, s.events), InitialAuditTenantStateMismatch, ok, failures);
    var reviews := FilterEvents(s.events, IsReview);
    var good;
    good, failures := CheckReviews(s.approvals, s.events, |reviews|, failures);
    ok := ok && good;
    good, failures := CheckObservations(s.intent, s.observations, s.events, failures);
    ok := ok && good;
    good, failures := CheckEnvelopes(cfg, reg, s, failures);
    ok := ok && good;
    good, failures := CheckStatus(s.intent, s.events, |reviews|, failures);
    ok := ok && good;
    good, failures := CheckThreshold(s.intent, |s.approvals|, approves, rejects, |s.observations|, failures);
    ok := ok && good;
  }

  // The report is valid exactly when the slice is green, each flag says what it names,
  // and the failure list is duplicate-free and empty exactly when the report is valid.
  method VerifySlice(cfg: Config, reg: Registry, s: Slice) returns (report: IntegrityReport)
    ensures report.valid == Green(cfg, reg, s)
    ensures report.intentHashValid == IntentHashValid(cfg, s.intent)
    ensures report.approvalReceiptsValid == ReceiptsValid(cfg, s.intent, s.approvals)
    ensures report.auditChainValid == ChainValid(s.intent, s.events)
    ensures report.stateConsistencyValid == StateConsistent(cfg, reg, s)
    ensures AllDistinct(report.failures) && (report.failures == [] <==> report.valid)
  {
    var failures := [];
    var hashOk, rowOk, receiptsOk, approvalsOk, chainOk, stateOk, approves, rejects;
    hashOk, failures := CheckIntentHash(cfg, s.intent, failures);
    rowOk, failures := CheckRow(cfg, s.intent, failures);
    receiptsOk, approvalsOk, approves, rejects, failures := CheckApprovals(cfg, s.intent, s.approvals, failures);
    chainOk, failures := CheckChain(s.intent, s.events, failures);
    stateOk, failures := CheckState(cfg, reg, s, approves, rejects, failures);
    stateOk := stateOk && rowOk && approvalsOk;
    var valid := hashOk && receiptsOk && chainOk && stateOk;
    report := IntegrityReport(valid, hashOk, receiptsOk, chainOk, stateOk, failures);
  }
}
