// What a green integrity report proves about tables of arbitrary content.
module Soundness {
  import opened Basics
  import opened Evidence
  import opened Integrity
  import opened Counting

  function Actors(approvals: seq<Approval>): set<string> {
    set i | 0 <= i < |approvals| :: approvals[i].actorId
  }

  // A row that binds its decision to this exact intent, in time, by a named person other than the agent.
  ghost predicate HumanDecision(cfg: Config, row: Intent, a: Approval) {
    && a.actorId != "" && a.actorId != row.agentId && (a.actorRole == Approver || a.actorRole == Admin)
    && a.intentHash == row.intentHash
    && a.receipt == Hmac(cfg.receiptSecret,
         ApprovalReceipt(row.id, row.intentHash, a.actorId, a.actorRole, a.decision, a.createdAt))
    && row.createdAt <= a.createdAt < row.expiresAt
  }

  // Review event number k tells of row a and of no other row.
  ghost predicate SoleWitness(events: seq<AuditEvent>, a: Approval, k: int) {
    && 0 <= k < |events| && ReviewMatches(events[k], a)
    && forall j :: 0 <= j < |events| && ReviewMatches(events[j], a) ==> j == k
  }

  // The rows that say one thing.
  function Saying(approvals: seq<Approval>, decision: Decision): set<int> {
    set i | 0 <= i < |approvals| && approvals[i].decision == decision
  }

  ghost predicate AllApproved(approvals: seq<Approval>) {
    forall i :: 0 <= i < |approvals| ==> approvals[i].decision == Approve
  }

  lemma {:induction false} SayingSnoc(approvals: seq<Approval>, n: nat, decision: Decision)
    requires n < |approvals|
    ensures |Saying(approvals[..n + 1], decision)|
      == |Saying(approvals[..n], decision)| + (if approvals[n].decision == decision then 1 else 0)
  {
    var before := Saying(approvals[..n], decision);
    assert Saying(approvals[..n + 1], decision) == if approvals[n].decision == decision then before + {n} else before;
  }

  lemma {:induction false} CountsWhenAllValid(cfg: Config, row: Intent, approvals: seq<Approval>, n: nat,
                                              decision: Decision)
    requires n <= |approvals|
    requires ReceiptsValid(cfg, row, approvals) && ApprovalsConsistent(row, approvals)
    ensures ValidCount(cfg, row, approvals, n, decision) == |Saying(approvals[..n], decision)|
  {
    hide ReceiptValid, SemanticsValid;
    if n == 0 {
      assert Saying(approvals[..n], decision) == {};
    } else {
      CountsWhenAllValid(cfg, row, approvals, n - 1, decision);
      assert ReceiptValid(cfg, row, approvals[n - 1]) && SemanticsValid(row, approvals, n - 1);
      SayingSnoc(approvals, n - 1, decision);
    }
  }

  // Rows of which none says REJECT all say APPROVE.
  lemma {:induction false} NoRejection(approvals: seq<Approval>)
    requires Saying(approvals, Reject) == {}
    ensures AllApproved(approvals) && |Saying(approvals, Approve)| == |approvals|
  {
    forall i | 0 <= i < |approvals| ensures approvals[i].decision == Approve { assert i !in Saying(approvals, Reject); }
    AllSay(approvals);
  }

  lemma {:induction false} AllSay(approvals: seq<Approval>)
    requires AllApproved(approvals)
    ensures |Saying(approvals, Approve)| == |approvals|
  {
    if approvals == [] {
      assert Saying(approvals, Approve) == {};
    } else {
      var n := |approvals| - 1;
      AllSay(approvals[..n]);
      SayingSnoc(approvals, n, Approve);
      assert approvals[..n + 1] == approvals;
    }
  }

  lemma {:induction false} DistinctActors(row: Intent, approvals: seq<Approval>, i: int, j: int)
    requires ApprovalsConsistent(row, approvals)
    requires 0 <= i < |approvals| && 0 <= j < |approvals| && approvals[i].actorId == approvals[j].actorId
    ensures i == j
  {
    assert SemanticsValid(row, approvals, i) && SemanticsValid(row, approvals, j);
    assert !Repeated(approvals, i) && !Repeated(approvals, j);
  }

  lemma {:induction false} ActorsCount(row: Intent, approvals: seq<Approval>)
    requires ApprovalsConsistent(row, approvals)
    ensures |Actors(approvals)| == |approvals|
  {
    if approvals == [] {
      assert Actors(approvals) == {};
    } else {
      var n := |approvals| - 1;
      var init := approvals[..n];
      forall i | 0 <= i < |init| ensures SemanticsValid(row, init, i) {
        assert SemanticsValid(row, approvals, i);
        assert forall j :: 0 <= j < i ==> init[j] == approvals[j];
      }
      ActorsCount(row, init);
      assert approvals[n].actorId !in Actors(init) by { assert SemanticsValid(row, approvals, n); }
      assert Actors(approvals) == Actors(init) + {approvals[n].actorId};
    }
  }

  ghost predicate HasWitness(events: seq<AuditEvent>, a: Approval) {
    exists k :: SoleWitness(events, a, k)
  }

  // Some row is the one that review event k tells of.
  ghost predicate HasRow(events: seq<AuditEvent>, approvals: seq<Approval>, k: int) {
    exists i :: 0 <= i < |approvals| && SoleWitness(events, approvals[i], k)
  }

  lemma {:induction false} WitnessOf(events: seq<AuditEvent>, a: Approval)
    requires CountTrue(ReviewMarks(events, a)) == 1
    ensures HasWitness(events, a)
  {
    var marks := ReviewMarks(events, a);
    var k := OneTrue(marks);
    assert forall j :: 0 <= j < |events| ==> marks[j] == ReviewMatches(events[j], a);
    assert SoleWitness(events, a, k);
  }

  lemma {:induction false} WitnessKnowsActor(events: seq<AuditEvent>, a: Approval, k: int)
    requires SoleWitness(events, a, k)
    ensures events[k].body.actorId == a.actorId && IsReview(events[k].body.eventType)
  {
  }

  ghost predicate RowBefore(events: seq<AuditEvent>, approvals: seq<Approval>, n: nat, k: int)
    requires n <= |approvals|
  {
    exists i :: 0 <= i < n && SoleWitness(events, approvals[i], k)
  }

  lemma {:induction false} NewWitness(row: Intent, approvals: seq<Approval>, events: seq<AuditEvent>, n: nat, k: int)
    requires n < |approvals| && ApprovalsConsistent(row, approvals) && SoleWitness(events, approvals[n], k)
    ensures !RowBefore(events, approvals, n, k)
  {
    forall i | 0 <= i < n ensures !SoleWitness(events, approvals[i], k) {
      hide ApprovalsConsistent;
      WitnessKnowsActor(events, approvals[n], k);
      if SoleWitness(events, approvals[i], k) { WitnessKnowsActor(events, approvals[i], k); }
      if approvals[i].actorId == approvals[n].actorId { DistinctActors(row, approvals, i, n); }
    }
  }

  // The events that tell of the first n rows are n different review events.
  lemma {:induction false} WitnessSet(row: Intent, approvals: seq<Approval>, events: seq<AuditEvent>, n: nat)
    returns (found: set<int>)
    requires n <= |approvals|
    requires ApprovalsConsistent(row, approvals)
    requires forall i :: 0 <= i < |approvals| ==> HasWitness(events, approvals[i])
    ensures |found| == n && found <= Indices(events, IsReview)
    ensures forall k :: k in found ==> RowBefore(events, approvals, n, k)
  {
    found := {};
    if n > 0 {
      hide ApprovalsConsistent, ReviewMatches;
      var before := WitnessSet(row, approvals, events, n - 1);
      assert HasWitness(events, approvals[n - 1]);
      var k :| SoleWitness(events, approvals[n - 1], k);
      WitnessKnowsActor(events, approvals[n - 1], k);
      NewWitness(row, approvals, events, n - 1, k);
      hide HasWitness;
      found := before + {k};
    }
  }

  // Rows and review events correspond one to one: no human decision in the log lacks a signed row.
  lemma {:induction false} ReviewEventsHaveRows(row: Intent, approvals: seq<Approval>, events: seq<AuditEvent>, k: int)
    requires ApprovalsConsistent(row, approvals)
    requires |Select(events, IsReview)| == |approvals|
    requires forall i :: 0 <= i < |approvals| ==> HasWitness(events, approvals[i])
    requires 0 <= k < |events| && IsReview(events[k].body.eventType)
    ensures HasRow(events, approvals, k)
  {
    var found := WitnessSet(row, approvals, events, |approvals|);
    IndicesCount(events, IsReview);
    SetSplit(found, Indices(events, IsReview));
    assert k in Indices(events, IsReview);
  }

  // Every row is a human decision, nobody's second one, and rows and review events tell of each
  // other one to one.
  ghost predicate ReviewsAuthentic(cfg: Config, s: Slice) {
    && (forall i :: 0 <= i < |s.approvals| ==> HumanDecision(cfg, s.intent, s.approvals[i]))
    && |Actors(s.approvals)| == |s.approvals|
    && s.intent.agentId !in Actors(s.approvals)
    && (forall i :: 0 <= i < |s.approvals| ==> HasWitness(s.events, s.approvals[i]))
    && (forall k :: 0 <= k < |s.events| && IsReview(s.events[k].body.eventType) ==>
          HasRow(s.events, s.approvals, k))
  }

  lemma {:induction false} RowsAreHuman(cfg: Config, row: Intent, approvals: seq<Approval>)
    requires ReceiptsValid(cfg, row, approvals) && ApprovalsConsistent(row, approvals)
    ensures forall i :: 0 <= i < |approvals| ==> HumanDecision(cfg, row, approvals[i])
    ensures row.agentId !in Actors(approvals)
  {
    forall i | 0 <= i < |approvals| ensures HumanDecision(cfg, row, approvals[i]) {
      assert ReceiptValid(cfg, row, approvals[i]) && SemanticsValid(row, approvals, i);
    }
  }

  lemma {:induction false} RowsAreAuthentic(cfg: Config, s: Slice)
    requires ReceiptsValid(cfg, s.intent, s.approvals) && ApprovalsConsistent(s.intent, s.approvals)
    requires ReviewsConsistent(s.approvals, s.events)
    ensures ReviewsAuthentic(cfg, s)
  {
    hide ValidCount, Select, SoleWitness, HasWitness, HasRow, ReviewMatches, ReceiptsValid, ApprovalsConsistent,
         HumanDecision, Actors;
    var row, approvals := s.intent, s.approvals;
    ActorsCount(row, approvals);
    RowsAreHuman(cfg, row, approvals);
    forall i | 0 <= i < |approvals| ensures HasWitness(s.events, approvals[i]) {
      WitnessOf(s.events, approvals[i]);
    }
    forall k | 0 <= k < |s.events| && IsReview(s.events[k].body.eventType) ensures HasRow(s.events, approvals, k) {
      ReviewEventsHaveRows(row, approvals, s.events, k);
    }
  }

  // The parts of a green report, each under its own name.
  lemma {:induction false} GreenParts(cfg: Config, reg: Registry, s: Slice)
    requires Green(cfg, reg, s)
    ensures RowConsistent(cfg, s.intent) && IntentHashValid(cfg, s.intent)
    ensures ReceiptsValid(cfg, s.intent, s.approvals) && ApprovalsConsistent(s.intent, s.approvals)
    ensures ChainValid(s.intent, s.events) && StatusConsistent(s.intent, s.events)
    ensures InitialEventConsistent(cfg, s.intent, s.events) && InitialTenantStateConsistent(cfg, s.events)
    ensures ReviewsConsistent(s.approvals, s.events) && ObservationsConsistent(s.intent, s.observations, s.events)
    ensures EnvelopesConsistent(cfg, reg, s)
    ensures ThresholdConsistent(s.intent, |s.approvals|,
                                ValidCount(cfg, s.intent, s.approvals, |s.approvals|, Approve),
                                ValidCount(cfg, s.intent, s.approvals, |s.approvals|, Reject),
                                |s.observations|)
  {
    hide ReceiptsValid, RowConsistent, ApprovalsConsistent, InitialEventConsistent, InitialTenantStateConsistent,
         ReviewsConsistent, ObservationsConsistent, EnvelopesConsistent, StatusConsistent, IntentHashValid, ChainValid,
         ThresholdConsistent, ValidCount;
  }

  // How many rows say what, by status.
  ghost predicate Decided(row: Intent, approvals: seq<Approval>) {
    match row.status
    case PolicyDenied => approvals == []
    case AwaitingApproval => AllApproved(approvals) && |approvals| < row.requiredApprovals
    case Cancelled => AllApproved(approvals) && |approvals| < row.requiredApprovals
    case Expired => AllApproved(approvals) && |approvals| < row.requiredApprovals
    case AuthorizedNoDispatch => AllApproved(approvals) && |approvals| >= row.requiredApprovals
    case Rejected => |Saying(approvals, Reject)| == 1 && |Saying(approvals, Approve)| < row.requiredApprovals
    case OtherStatus(_) => false
  }

  lemma {:induction false} CountsDecide(row: Intent, approvals: seq<Approval>, observations: nat)
    requires ThresholdConsistent(row, |approvals|, |Saying(approvals, Approve)|, |Saying(approvals, Reject)|,
                                 observations)
    requires !row.status.OtherStatus?
    ensures Decided(row, approvals)
    ensures row.policyAllowed <==> row.status != PolicyDenied
    ensures observations > 0 ==> row.status == AuthorizedNoDispatch
  {
    if |Saying(approvals, Reject)| == 0 { NoRejection(approvals); }
    hide Saying, AllApproved;
  }

  lemma {:induction false} RowNamed(cfg: Config, row: Intent)
    requires RowConsistent(cfg, row)
    ensures !row.status.OtherStatus? && (row.requiredApprovals == 1 || row.requiredApprovals == 2)
    ensures row.policyReasons.Some?
  {
    hide ReasonsConsistent;
  }

  // What a green report means for each status, on tables of any content: every row is an
  // authentic human decision the log tells of, and how many of them say APPROVE and REJECT.
  lemma {:induction false} GreenMeansDecided(cfg: Config, reg: Registry, s: Slice)
    requires Green(cfg, reg, s)
    ensures ReviewsAuthentic(cfg, s) && Decided(s.intent, s.approvals)
    ensures s.intent.requiredApprovals == 1 || s.intent.requiredApprovals == 2
    ensures s.intent.policyAllowed <==> s.intent.status != PolicyDenied
    ensures s.observations != [] ==> s.intent.status == AuthorizedNoDispatch
  {
    hide *;
    GreenParts(cfg, reg, s);
    RowsAreAuthentic(cfg, s);
    RowNamed(cfg, s.intent);
    var n := |s.approvals|;
    CountsWhenAllValid(cfg, s.intent, s.approvals, n, Approve);
    CountsWhenAllValid(cfg, s.intent, s.approvals, n, Reject);
    assert s.approvals[..n] == s.approvals;
    CountsDecide(s.intent, s.approvals, |s.observations|);
  }

  // At least the required number of different people, none of them the agent, approved.
  ghost predicate ApprovedByHumans(cfg: Config, s: Slice) {
    && ReviewsAuthentic(cfg, s) && AllApproved(s.approvals)
    && |Actors(s.approvals)| == |s.approvals| >= s.intent.requiredApprovals >= 1
  }

  // A green report on an AUTHORIZED_NO_DISPATCH intent means it was authorized.
  lemma {:induction false} GreenMeansAuthorized(cfg: Config, reg: Registry, s: Slice)
    requires Green(cfg, reg, s) && s.intent.status == AuthorizedNoDispatch
    ensures s.intent.policyAllowed && s.intent.policyReasons.Some?
    ensures s.intent.intentHash == OfIntent(PayloadFromRow(cfg, s.intent))
    ensures ApprovedByHumans(cfg, s)
    ensures AuditedStatus(s.events) == Some(AuthorizedNoDispatch)
    ensures s.intent.stateVersion == 1 + |s.approvals| + |Select(s.events, IsTerminal)|
  {
    GreenMeansDecided(cfg, reg, s);
    GreenParts(cfg, reg, s);
    hide Green, RowConsistent, ReceiptsValid, ApprovalsConsistent, ChainValid, InitialEventConsistent,
         InitialTenantStateConsistent, ObservationsConsistent, EnvelopesConsistent, OutcomesValid, AllApproved,
         ThresholdConsistent, HumanDecision, HasWitness, HasRow, Select, AuditedStatus;
  }

  // ----- the row and its log -----

  lemma {:induction false} ReasonsSplit(reasons: seq<Reason>, r: Reason)
    ensures |Approving(reasons)| + |Denying(reasons)| == |reasons|
    ensures r in Approving(reasons) <==> r in reasons && IsApprovalReason(r)
  {
    if reasons != [] { ReasonsSplit(reasons[1..], r); }
  }

  // The stored reasons: each once, one approval rule, the one the requirement names, and a denial
  // beside it exactly when the policy denied.
  lemma {:induction false} GreenReasons(cfg: Config, reg: Registry, s: Slice)
    requires Green(cfg, reg, s)
    ensures s.intent.policyReasons.Some? && s.intent.policyReasons.value.Listed?
    ensures var reasons := s.intent.policyReasons.value.reasons;
      && (forall i, j :: 0 <= i < j < |reasons| ==> reasons[i] != reasons[j])
      && (HumanApprovalRequired in reasons <==> s.intent.requiredApprovals == 1)
      && (DistinctDualApprovalRequired in reasons <==> s.intent.requiredApprovals == 2)
      && (s.intent.policyAllowed <==> |reasons| == 1)
  {
    hide Green, Approving, Denying;
    GreenParts(cfg, reg, s);
    var reasons := s.intent.policyReasons.value.reasons;
    ReasonsSplit(reasons, HumanApprovalRequired);
    ReasonsSplit(reasons, DistinctDualApprovalRequired);
  }

  // The first event records the decision the row records.
  lemma {:induction false} GreenFirstEvent(cfg: Config, reg: Registry, s: Slice)
    requires Green(cfg, reg, s)
    ensures s.intent.tenantId == cfg.tenantId && s.intent.rulesVersion != ""
    ensures s.intent.initialStatus == if s.intent.policyAllowed then AwaitingApproval else PolicyDenied
    ensures s.events != [] && s.intent.policyReasons.Some? && s.intent.policyReasons.value.Listed?
    ensures var row, first := s.intent, s.events[0].body;
      var policy := Get(first.payload, PolicyField);
      && first.eventType == (if row.policyAllowed then ProposalCreated else ProposalPolicyDenied)
      && first.occurredAt == row.createdAt
      && Get(first.payload, IntentHashField) == DigestText(row.intentHash)
      && Get(first.payload, TenantIdField) == Text(row.tenantId)
      && Get(first.payload, StateVersionField) == Number(1)
      && Get(first.payload, StatusField) == StatusText(row.initialStatus)
      && Member(policy, AllowedField) == Flag(row.policyAllowed)
      && Member(policy, ReasonsField) == ReasonList(row.policyReasons.value.reasons)
      && Member(policy, RulesVersionField) == Text(row.rulesVersion)
      && Member(policy, ConfigDigestField) == DigestText(OfPolicyConfig(cfg.policy))
      && Member(policy, RequiredApprovalsField) == Number(row.requiredApprovals)
  {
    hide Green, ReasonsConsistent;
    GreenParts(cfg, reg, s);
  }

  lemma {:induction false} ChainOrdered(row: Intent, events: seq<AuditEvent>, i: nat, j: nat)
    requires ChainValid(row, events) && i <= j < |events|
    ensures events[j].body.payload.Json? && events[j].body.intentId == row.id
    ensures row.createdAt <= events[i].body.occurredAt <= events[j].body.occurredAt
    decreases j
  {
    assert EventValid(row, events, i) && EventValid(row, events, j);
    if i < j { ChainOrdered(row, events, i, j - 1); }
  }

  // Every event parses, belongs to the proposal, and stands no earlier than any before it; at
  // most one of them ends the proposal.
  lemma {:induction false} GreenChronology(cfg: Config, reg: Registry, s: Slice, i: nat, j: nat)
    requires Green(cfg, reg, s) && i <= j < |s.events|
    ensures s.events[j].body.payload.Json? && s.events[j].body.intentId == s.intent.id
    ensures s.intent.createdAt <= s.events[i].body.occurredAt <= s.events[j].body.occurredAt
    ensures |Select(s.events, IsTerminal)| <= 1
  {
    hide *;
    GreenParts(cfg, reg, s);
    ChainOrdered(s.intent, s.events, i, j);
    OneTerminal(s.intent, s.events);
  }

  lemma {:induction false} OneTerminal(row: Intent, events: seq<AuditEvent>)
    requires StatusConsistent(row, events)
    ensures |Select(events, IsTerminal)| <= 1
  {
    hide OutcomesValid, AuditedStatus, Select;
  }

  lemma {:induction false} ObservationTold(e: AuditEvent, o: Observation)
    requires ObservationMatches(e, o)
    ensures e.body.occurredAt == o.observedAt
    ensures Get(e.body.payload, StatusField) == ObservationText(o.status)
    ensures Get(e.body.payload, ProviderReferenceField) == OptionalText(o.providerReference)
    ensures Get(e.body.payload, SourceField) == Text("DEMO_MOCK")
    ensures Get(e.body.payload, RetryPermittedField) == Flag(false)
    ensures Get(e.body.payload, MovesMoneyField) == Flag(false)
    ensures var named := Get(e.body.payload, ObservationIdField); named == Undefined || named == Text(o.id)
  {
  }

  lemma {:induction false} ObservedRow(row: Intent, observations: seq<Observation>, events: seq<AuditEvent>, i: nat)
    requires ObservationsConsistent(row, observations, events) && i < |observations|
    ensures var o := observations[i];
      && o.id != "" && !o.status.OtherObservation? && row.createdAt <= o.observedAt
      && (o.providerReference.Some? ==> 1 <= |o.providerReference.value| <= 200)
      && (o.status == InDoubt ==> i == |observations| - 1)
    ensures |Select(events, IsObservation)| == |observations|
    ensures ObservationMatches(Select(events, IsObservation)[i], observations[i])
  {
    hide ObservationMatches, Select;
    assert ObservationSemanticsValid(row, observations[i]);
    assert !FrozenBefore(observations, |observations| - 1);
  }

  // An observation is of a known kind, at or after the creation, told of by its own event in order,
  // and IN_DOUBT can only be the last.
  lemma {:induction false} GreenObservations(cfg: Config, reg: Registry, s: Slice, i: nat)
    requires Green(cfg, reg, s) && i < |s.observations|
    ensures var o := s.observations[i];
      && o.id != "" && !o.status.OtherObservation? && s.intent.createdAt <= o.observedAt
      && (o.providerReference.Some? ==> 1 <= |o.providerReference.value| <= 200)
      && (o.status == InDoubt ==> i == |s.observations| - 1)
    ensures |Select(s.events, IsObservation)| == |s.observations|
    ensures var o, e := s.observations[i], Select(s.events, IsObservation)[i].body;
      && e.occurredAt == o.observedAt
      && Get(e.payload, StatusField) == ObservationText(o.status)
      && Get(e.payload, ProviderReferenceField) == OptionalText(o.providerReference)
      && Get(e.payload, SourceField) == Text("DEMO_MOCK")
      && Get(e.payload, RetryPermittedField) == Flag(false) && Get(e.payload, MovesMoneyField) == Flag(false)
      && (Get(e.payload, ObservationIdField) == Undefined || Get(e.payload, ObservationIdField) == Text(o.id))
  {
    hide *;
    GreenParts(cfg, reg, s);
    ObservedRow(s.intent, s.observations, s.events, i);
    ObservationTold(Select(s.events, IsObservation)[i], s.observations[i]);
  }

  lemma {:induction false} ReviewSays(e: EventBody, hash: Digest, a: Approval)
    requires ReviewMatches(AuditEvent(e, hash), a)
    ensures e.eventType == if a.decision == Approve then HumanApprovalRecorded else HumanRejectionRecorded
    ensures e.actorId == a.actorId && e.occurredAt == a.createdAt
    ensures Get(e.payload, ActorRoleField) == RoleText(a.actorRole)
    ensures Get(e.payload, DecisionField) == DecisionText(a.decision)
    ensures Get(e.payload, IntentHashField) == DigestText(a.intentHash)
    ensures Get(e.payload, ReceiptHmacField) == MacText(a.receipt)
  {
  }

  // A row's decision is told by one event, with person, role, moment, intent hash and receipt.
  lemma {:induction false} GreenReviewEvent(cfg: Config, reg: Registry, s: Slice, i: nat) returns (k: nat)
    requires Green(cfg, reg, s) && i < |s.approvals|
    ensures k < |s.events| && |Select(s.events, IsReview)| == |s.approvals|
    ensures var a, e := s.approvals[i], s.events[k].body;
      && e.eventType == (if a.decision == Approve then HumanApprovalRecorded else HumanRejectionRecorded)
      && e.actorId == a.actorId && e.occurredAt == a.createdAt
      && Get(e.payload, ActorRoleField) == RoleText(a.actorRole)
      && Get(e.payload, DecisionField) == DecisionText(a.decision)
      && Get(e.payload, IntentHashField) == DigestText(a.intentHash)
      && Get(e.payload, ReceiptHmacField) == MacText(a.receipt)
  {
    hide Green, ReviewMatches, Select;
    GreenParts(cfg, reg, s);
    WitnessOf(s.events, s.approvals[i]);
    k :| SoleWitness(s.events, s.approvals[i], k);
    ReviewSays(s.events[k].body, s.events[k].eventHash, s.approvals[i]);
  }

  // An envelope is what an attested key signed under its own id, its columns are the claims', and
  // it was consumed, if at all, inside its lifetime.
  lemma {:induction false} GreenEnvelopes(cfg: Config, reg: Registry, s: Slice, eid: Id)
    requires Green(cfg, reg, s) && eid in s.envelopes
    ensures var env := s.envelopes[eid];
      && env.compact.Jws? && env.compact.document.ClaimsDocument? && env.keyId in reg.rows
      && var c, jwk := env.compact.document.claims, reg.rows[env.keyId].jwk;
      && jwk.Jwk? && jwk.kid == env.compact.kid == env.keyId
      && env.compact == Jws(env.keyId, ClaimsDocument(c), Ed25519(jwk.keyPair, env.keyId, ClaimsDocument(c)))
      && c.jti == eid && c.snapshot.id == s.intent.id && c.tenantId == env.tenantId && c.audience == env.audience
      && c.authorizationStateVersion == env.stateVersion
      && env.claimsHash == OfClaims(c) && env.nonceHash == OfText(c.nonce)
      && env.issuedAt == c.issuedAt && env.expiresAt == c.exp * 1000 && c.iat == env.issuedAt / 1000
      && (env.consumedAt.Some? <==> env.consumedBy.Some?) && (env.consumedAt.Some? <==> env.consumptionKey.Some?)
      && (env.consumedAt.Some? ==> env.issuedAt <= env.consumedAt.value < env.expiresAt)
  {
    hide Green, StrictClaims, IssueMarks, ConsumeMarks;
    GreenParts(cfg, reg, s);
    assert EnvelopeValid(cfg, reg, s.intent.id, s.events, eid, s.envelopes[eid]);
  }

  // Its issue is told by the event at the position in its claims and by no other, with every column;
  // the log holds as many issue events as there are envelopes.
  lemma {:induction false} GreenIssueEvent(cfg: Config, reg: Registry, s: Slice, eid: Id)
    requires Green(cfg, reg, s) && eid in s.envelopes
    ensures |Select(s.events, IsIssue)| == |s.envelopes|
    ensures s.envelopes[eid].compact.Jws? && s.envelopes[eid].compact.document.ClaimsDocument?
    ensures var env := s.envelopes[eid];
      var c := env.compact.document.claims;
      && 1 <= c.eventCount < |s.events|
      && var e := s.events[c.eventCount].body;
      && e.eventType == EvidenceEnvelopeIssued && e.occurredAt == env.issuedAt && e.previousHash == c.chainTip
      && Get(e.payload, EnvelopeIdField) == Text(eid) && Get(e.payload, AudienceField) == Text(env.audience)
      && Get(e.payload, StateVersionField) == Number(env.stateVersion) && Get(e.payload, KeyIdField) == Text(env.keyId)
      && Get(e.payload, ClaimsHashField) == DigestText(env.claimsHash)
      && Get(e.payload, JwsDigestField) == DigestText(OfJws(env.compact))
      && Get(e.payload, IssuanceHashField) == DigestText(OfText(env.issuanceKey))
      && Get(e.payload, ExpiresAtField) == TimeText(env.expiresAt)
      && Get(e.payload, ExecutionAuthorizedField) == Flag(false) && Get(e.payload, MovesMoneyField) == Flag(false)
  {
    hide *;
    GreenParts(cfg, reg, s);
    EnvelopeParts(cfg, reg, s, eid);
    var env := s.envelopes[eid];
    var c := env.compact.document.claims;
    var k := OneTrue(IssueMarks(s.events, eid, env, c));
    MarkedIssue(s.events, k, eid, env, c);
    IssueSays(s.events, k, eid, env, c);
    ClaimsCount(c);
  }

  lemma {:induction false} EnvelopeParts(cfg: Config, reg: Registry, s: Slice, eid: Id)
    requires EnvelopesConsistent(cfg, reg, s) && eid in s.envelopes
    ensures |Select(s.events, IsIssue)| == |s.envelopes|
    ensures s.envelopes[eid].compact.Jws? && s.envelopes[eid].compact.document.ClaimsDocument?
    ensures StrictClaims(s.envelopes[eid].compact.document.claims)
    ensures CountTrue(IssueMarks(s.events, eid, s.envelopes[eid], s.envelopes[eid].compact.document.claims)) == 1
  {
    hide StrictClaims, TrustedJwk, ConsumptionColumnsConsistent, ConsumeMarks, Select, IssueMarks;
    assert EnvelopeValid(cfg, reg, s.intent.id, s.events, eid, s.envelopes[eid]);
  }

  lemma {:induction false} MarkedIssue(events: seq<AuditEvent>, k: int, eid: Id, env: Envelope, c: Claims)
    requires OnlyTrueAt(IssueMarks(events, eid, env, c), k)
    ensures 0 <= k < |events| && IssueMatches(events, k, eid, env, c)
  {
    hide IssueMatches;
  }

  lemma {:induction false} ClaimsCount(c: Claims)
    requires StrictClaims(c)
    ensures c.eventCount >= 1
  {
  }

  lemma {:induction false} IssueSays(events: seq<AuditEvent>, k: nat, eid: Id, env: Envelope, c: Claims)
    requires k < |events| && IssueMatches(events, k, eid, env, c)
    ensures var e := events[k].body;
      && k == c.eventCount && e.eventType == EvidenceEnvelopeIssued
      && e.occurredAt == env.issuedAt && e.previousHash == c.chainTip
      && Get(e.payload, EnvelopeIdField) == Text(eid) && Get(e.payload, AudienceField) == Text(env.audience)
      && Get(e.payload, StateVersionField) == Number(env.stateVersion) && Get(e.payload, KeyIdField) == Text(env.keyId)
      && Get(e.payload, ClaimsHashField) == DigestText(env.claimsHash)
      && Get(e.payload, JwsDigestField) == DigestText(OfJws(env.compact))
      && Get(e.payload, IssuanceHashField) == DigestText(OfText(env.issuanceKey))
      && Get(e.payload, ExpiresAtField) == TimeText(env.expiresAt)
      && Get(e.payload, ExecutionAuthorizedField) == Flag(false) && Get(e.payload, MovesMoneyField) == Flag(false)
  {
  }

  // Its consumption is told by one event, with consumer, key and moment; the log holds as many
  // consume events as there are consumed envelopes.
  lemma {:induction false} GreenConsumeEvent(cfg: Config, reg: Registry, s: Slice, eid: Id) returns (k: nat)
    requires Green(cfg, reg, s) && eid in s.envelopes && s.envelopes[eid].consumedAt.Some?
    ensures |Select(s.events, IsConsume)| == |Consumed(s.envelopes)|
    ensures k < |s.events| && s.envelopes[eid].consumedBy.Some? && s.envelopes[eid].consumptionKey.Some?
    ensures var env, e := s.envelopes[eid], s.events[k].body;
      && e.eventType == EvidenceEnvelopeConsumed && e.actorId == env.consumedBy.value
      && e.occurredAt == env.consumedAt.value
      && Get(e.payload, EnvelopeIdField) == Text(eid) && Get(e.payload, AudienceField) == Text(env.audience)
      && Get(e.payload, ConsumerIdField) == Text(env.consumedBy.value)
      && Get(e.payload, ConsumptionHashField) == DigestText(OfText(env.consumptionKey.value))
      && Get(e.payload, StateVersionField) == Number(env.stateVersion)
      && Get(e.payload, ExecutionAuthorizedField) == Flag(false) && Get(e.payload, MovesMoneyField) == Flag(false)
  {
    hide Green, VerifiedClaims, IssueMarks, Select, ConsumeMatches, Consumed;
    GreenParts(cfg, reg, s);
    var env := s.envelopes[eid];
    assert EnvelopeValid(cfg, reg, s.intent.id, s.events, eid, env);
    k := OneTrue(ConsumeMarks(s.events, eid, env));
    assert ConsumeMatches(s.events[k].body, eid, env);
    ConsumeSays(s.events[k].body, eid, env);
  }

  lemma {:induction false} ConsumeSays(e: EventBody, eid: Id, env: Envelope)
    requires ConsumeMatches(e, eid, env)
    ensures env.consumedBy.Some? && env.consumptionKey.Some? && env.consumedAt == Some(e.occurredAt)
    ensures e.eventType == EvidenceEnvelopeConsumed && e.actorId == env.consumedBy.value
    ensures Get(e.payload, EnvelopeIdField) == Text(eid) && Get(e.payload, AudienceField) == Text(env.audience)
    ensures Get(e.payload, ConsumerIdField) == Text(env.consumedBy.value)
    ensures Get(e.payload, ConsumptionHashField) == DigestText(OfText(env.consumptionKey.value))
    ensures Get(e.payload, StateVersionField) == Number(env.stateVersion)
    ensures Get(e.payload, ExecutionAuthorizedField) == Flag(false)
    ensures Get(e.payload, MovesMoneyField) == Flag(false)
  {
  }

  // What a review event says it led to is a status a review can lead to.
  lemma {:induction false} GreenOutcomes(cfg: Config, reg: Registry, s: Slice, k: nat)
    requires Green(cfg, reg, s) && k < |s.events|
    requires s.events[k].body.eventType in {HumanApprovalRecorded, HumanRejectionRecorded}
    ensures Get(s.events[k].body.payload, ResultingStatusField)
      in {StatusText(AwaitingApproval), StatusText(AuthorizedNoDispatch), StatusText(Rejected)}
  {
    hide Green, AuditedStatus, Select;
    GreenParts(cfg, reg, s);
    assert IsReview(s.events[k].body.eventType);
  }

  // ----- the chain tip pins the history -----

  // Two chains of one intent that verify and end in the same hash are the same chain.
  lemma {:induction false} TipPinsHistory(id: Id, a: seq<AuditEvent>, b: seq<AuditEvent>)
    requires forall i :: 0 <= i < |a| ==> LinkValid(id, a, i)
    requires forall i :: 0 <= i < |b| ==> LinkValid(id, b, i)
    requires Tip(a) == Tip(b)
    ensures a == b
  {
    assert a != [] ==> LinkValid(id, a, |a| - 1);
    assert b != [] ==> LinkValid(id, b, |b| - 1);
    if a != [] {
      var m, n := |a| - 1, |b| - 1;
      Init(id, a);
      Init(id, b);
      TipPinsHistory(id, a[..m], b[..n]);
      assert a == a[..m] + [a[m]] && b == b[..n] + [b[n]];
    }
  }

  lemma {:induction false} Init(id: Id, a: seq<AuditEvent>)
    requires a != [] && forall i :: 0 <= i < |a| ==> LinkValid(id, a, i)
    ensures var n := |a| - 1;
      (forall i :: 0 <= i < n ==> LinkValid(id, a[..n], i)) && Tip(a[..n]) == a[n].body.previousHash
  {
    PrefixLinks(id, a, |a| - 1);
  }

  lemma {:induction false} PrefixLinks(id: Id, a: seq<AuditEvent>, n: nat)
    requires n <= |a| && forall i :: 0 <= i < |a| ==> LinkValid(id, a, i)
    ensures forall i :: 0 <= i < n ==> LinkValid(id, a[..n], i)
    ensures n < |a| ==> Tip(a[..n]) == a[n].body.previousHash
  {
    forall i | 0 <= i < n ensures LinkValid(id, a[..n], i) { assert LinkValid(id, a, i); }
    if n < |a| { assert LinkValid(id, a, n); }
  }

  // A stored envelope's source_audit fixes the log before its issue event: two green
  // databases that hold an envelope with these claims agree on every earlier event.
  lemma {:induction false} SourceAuditPinsLog(cfg1: Config, reg1: Registry, s1: Slice, cfg2: Config, reg2: Registry,
                                              s2: Slice, eid: Id, c: Claims)
    requires Green(cfg1, reg1, s1) && Green(cfg2, reg2, s2) && s1.intent.id == s2.intent.id
    requires eid in s1.envelopes
    requires VerifiedClaims(cfg1, reg1, s1.envelopes[eid].keyId, s1.envelopes[eid].compact) == Some(c)
    requires eid in s2.envelopes
    requires VerifiedClaims(cfg2, reg2, s2.envelopes[eid].keyId, s2.envelopes[eid].compact) == Some(c)
    ensures 1 <= c.eventCount < |s1.events| && c.eventCount < |s2.events|
    ensures s1.events[..c.eventCount] == s2.events[..c.eventCount]
    ensures Tip(s1.events[..c.eventCount]) == c.chainTip
    ensures IsIssue(s1.events[c.eventCount].body.eventType) && IsIssue(s2.events[c.eventCount].body.eventType)
  {
    IssuePosition(cfg1, reg1, s1, eid, c);
    IssuePosition(cfg2, reg2, s2, eid, c);
    PrefixLinks(s1.intent.id, s1.events, c.eventCount);
    PrefixLinks(s2.intent.id, s2.events, c.eventCount);
    TipPinsHistory(s1.intent.id, s1.events[..c.eventCount], s2.events[..c.eventCount]);
  }

  lemma {:induction false} IssuePosition(cfg: Config, reg: Registry, s: Slice, eid: Id, c: Claims)
    requires ChainValid(s.intent, s.events) && eid in s.envelopes
    requires EnvelopeValid(cfg, reg, s.intent.id, s.events, eid, s.envelopes[eid])
    requires VerifiedClaims(cfg, reg, s.envelopes[eid].keyId, s.envelopes[eid].compact) == Some(c)
    ensures 1 <= c.eventCount < |s.events| && IsIssue(s.events[c.eventCount].body.eventType)
    ensures s.events[c.eventCount].body.previousHash == c.chainTip
    ensures forall i :: 0 <= i < |s.events| ==> LinkValid(s.intent.id, s.events, i)
  {
    var env := s.envelopes[eid];
    forall i | 0 <= i < |s.events|
      ensures LinkValid(s.intent.id, s.events, i)
    {
      assert EventValid(s.intent, s.events, i);
    }
    var k := OneTrue(IssueMarks(s.events, eid, env, c));
    assert IssueMatches(s.events, k, eid, env, c);
  }
}
