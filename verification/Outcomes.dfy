// What each operation answers, and what it writes, in terms of the stored columns: exactly when it
// succeeds, which single fault gets which error, and who may bring a change about.
module Outcomes {
  import opened Basics
  import opened Evidence
  import opened Integrity
  import opened Soundness
  import opened Operations
  import opened Invariant
  import opened EnvelopeLife
  import opened SigningKeys
  import opened Store
  import opened Runs
  import opened Guarantees

  // ----- what is known of a stored proposal -----

  // Nothing recorded for the proposal is later than this moment.
  ghost predicate NothingAfter(s: Slice, at: int) {
    forall k :: 0 <= k < |s.events| ==> s.events[k].body.occurredAt <= at
  }

  lemma {:induction false} AppendsAfter(cfg: Config, reg: Registry, s: Slice, at: int)
    requires Green(cfg, reg, s)
    ensures CanAppend(s, at) <==> NothingAfter(s, at)
  {
    hide Green;
    GreenFirstEvent(cfg, reg, s);
    var n := |s.events| - 1;
    forall k | 0 <= k < |s.events| ensures s.events[k].body.occurredAt <= s.events[n].body.occurredAt {
      GreenChronology(cfg, reg, s, k, n);
    }
  }

  // The proposal as it stands before a decision.
  lemma {:induction false} Stored(cfg: Config, w: World, id: Id, at: int)
    requires Reachable(cfg, w) && id in w.book
    ensures var s := w.book[id];
      && Green(cfg, w.registry, s) && (CanAppend(s, at) <==> NothingAfter(s, at))
      && s.intent.id == id && s.intent.tenantId == cfg.tenantId
      && (s.intent.status == AwaitingApproval ==> Approves(s.approvals) == |s.approvals| < s.intent.requiredApprovals)
  {
    hide Reachable, Green, Lifecycle, CanAppend, NothingAfter;
    ReachableInv(cfg, w);
    GreenInWorld(cfg, w, id);
    SliceParts(cfg, w.registry, id, w.book[id]) by { hide SliceInv; assert SliceInv(cfg, w.registry, id, w.book[id]); }
    AppendsAfter(cfg, w.registry, w.book[id], at);
    GreenRow(cfg, w.registry, w.book[id]);
    if w.book[id].intent.status == AwaitingApproval { ApprovesAll(w.book[id].approvals); }
  }

  // One event more, of a given kind, by a given actor, at a given moment, chained to the last.
  ghost predicate Logged(s: Slice, s': Slice, eventType: EventType, actorId: string, at: int) {
    && |s'.events| == |s.events| + 1 && s.events <= s'.events
    && var e := Last(s'.events);
    && e.body.intentId == s.intent.id && e.body.eventType == eventType && e.body.actorId == actorId
    && e.body.occurredAt == at && e.body.previousHash == Tip(s.events) && e.eventHash == OfEvent(e.body)
  }

  // What the last event's payload holds under a name.
  function Says(s: Slice, field: Field): Value
    requires s.events != []
  {
    Get(Last(s.events).body.payload, field)
  }

  lemma {:induction false} Appended(s: Slice, eventType: EventType, actorId: string, payload: Payload, at: int)
    ensures var s' := Append(s, eventType, actorId, payload, at);
      Logged(s, s', eventType, actorId, at) && Last(s'.events).body.payload == payload && s' == s.(events := s'.events)
  {
  }

  // Only one proposal changed.
  ghost predicate OnlyChanged(w: World, w': World, id: Id) {
    id in w'.book && w' == w.(book := w.book[id := w'.book[id]])
  }

  // ----- approve and reject -----

  // The decision is on file: one signed row, the status it leads to, and one event.
  ghost predicate Reviewed(cfg: Config, s: Slice, s': Slice, actorId: string, role: Role, decision: Decision, at: int) {
    && s'.approvals == s.approvals + [Approval(s.intent.id, actorId, role, decision, s.intent.intentHash, at,
         Hmac(cfg.receiptSecret,
              ApprovalReceipt(s.intent.id, s.intent.intentHash, actorId, role, decision, at)))]
    && s'.intent == s.intent.(stateVersion := s.intent.stateVersion + 1,
         status := if decision == Reject then Rejected
                   else if |s'.approvals| == s.intent.requiredApprovals then AuthorizedNoDispatch
                   else AwaitingApproval)
    && Logged(s, s', if decision == Reject then HumanRejectionRecorded else HumanApprovalRecorded, actorId, at)
    && Says(s', ActorRoleField) == RoleText(role) && Says(s', DecisionField) == DecisionText(decision)
    && Says(s', IntentHashField) == DigestText(s.intent.intentHash)
    && Says(s', ReceiptHmacField) == MacText(Last(s'.approvals).receipt)
    && Says(s', ResultingStatusField) == StatusText(s'.intent.status)
    && s'.observations == s.observations && s'.envelopes == s.envelopes
  }

  lemma {:induction false} ReviewedColumns(cfg: Config, s: Slice, actorId: string, role: Role, decision: Decision,
                                           at: int)
    requires Approves(s.approvals) == |s.approvals| < s.intent.requiredApprovals
    ensures Reviewed(cfg, s, ReviewedSlice(cfg, s, actorId, role, decision, at), actorId, role, decision, at)
  {
    var a := NewApproval(cfg, s, actorId, role, decision, at);
    var outcome := OutcomeOf(s, decision);
    var moved := Moved(s.(approvals := s.approvals + [a]), outcome);
    Appended(moved, ReviewType(decision), actorId, ReviewPayload(a, outcome), at);
    ReviewPayloadSays(a, outcome);
    hide Append, ReviewPayload;
  }

  lemma {:induction false} ReviewPayloadSays(a: Approval, outcome: Status)
    ensures var p := ReviewPayload(a, outcome);
      && Get(p, ActorRoleField) == RoleText(a.actorRole) && Get(p, DecisionField) == DecisionText(a.decision)
      && Get(p, IntentHashField) == DigestText(a.intentHash) && Get(p, ReceiptHmacField) == MacText(a.receipt)
      && Get(p, ResultingStatusField) == StatusText(outcome)
  {
  }

  // Whatever the store holds: a malformed name, an agent's or a consumer's role, or an unknown proposal.
  lemma {:induction false} ReviewRefusesOutright(cfg: Config, w: World, id: Id, actorId: string, role: Role,
                                                 decision: Decision, at: int)
    ensures actorId == "" || |actorId| > 128 ==>
      Review(cfg, w, id, actorId, role, decision, at) == Reply(w, Err(ValidationError))
    ensures 1 <= |actorId| <= 128 && (role == Agent || role == Consumer) ==>
      Review(cfg, w, id, actorId, role, decision, at) == Reply(w, Err(HumanApproverRequired))
    ensures 1 <= |actorId| <= 128 && (role == Approver || role == Admin) && id !in w.book ==>
      Review(cfg, w, id, actorId, role, decision, at) == Reply(w, Err(NotFound))
  {
  }

  // A review by an approver or admin is accepted exactly when it is in time, by someone other than
  // the agent who has not reviewed before, and not behind the log; then it is on file.
  lemma {:induction false} ReviewAnswers(cfg: Config, w: World, id: Id, actorId: string, role: Role,
                                         decision: Decision, at: int)
    requires Reachable(cfg, w) && id in w.book
    requires 1 <= |actorId| <= 128 && (role == Approver || role == Admin)
    ensures var s, r := w.book[id], Review(cfg, w, id, actorId, role, decision, at);
      var twice := exists i :: 0 <= i < |s.approvals| && s.approvals[i].actorId == actorId;
      && (r.result.Ok? <==>
            && s.intent.status == AwaitingApproval && at < s.intent.expiresAt
            && actorId != s.intent.agentId && !twice && NothingAfter(s, at))
      && (r.result.Ok? ==>
            && r.result.value == id && OnlyChanged(w, r.world, id)
            && Reviewed(cfg, s, r.world.book[id], actorId, role, decision, at))
      && (actorId == s.intent.agentId ==> r == Reply(w, Err(AgentCannotApprove)))
      && (actorId != s.intent.agentId && s.intent.status != AwaitingApproval ==> r == Reply(w, Err(InvalidState)))
      && (actorId != s.intent.agentId && s.intent.status == AwaitingApproval && at < s.intent.expiresAt ==>
            && (twice ==> r == Reply(w, Err(DuplicateApprover)))
            && (!twice && !NothingAfter(s, at) ==> r == Reply(w, Err(ClockRollbackDetected))))
  {
    hide Reachable, Green, CanAppend, NothingAfter, ReviewedSlice, Reviewed, Approves, ExpiredSlice;
    Stored(cfg, w, id, at);
    if w.book[id].intent.status == AwaitingApproval {
      ReviewedColumns(cfg, w.book[id], actorId, role, decision, at);
    }
  }

  // ----- cancel -----

  ghost predicate CancelledBy(s: Slice, s': Slice, actorId: string, at: int) {
    && s'.intent == s.intent.(stateVersion := s.intent.stateVersion + 1, status := Cancelled)
    && Logged(s, s', ProposalCancelled, actorId, at) && Says(s', StatusField) == StatusText(Cancelled)
    && s'.approvals == s.approvals && s'.observations == s.observations && s'.envelopes == s.envelopes
  }

  lemma {:induction false} CancelledColumns(s: Slice, actorId: string, at: int)
    ensures CancelledBy(s, CancelledSlice(s, actorId, at), actorId, at)
  {
  }

  // Whatever the store holds: a malformed name, an approver's or a consumer's role, an unknown
  // proposal, or an agent asking for another agent's proposal.
  lemma {:induction false} CancelRefusesOutright(cfg: Config, w: World, id: Id, actorId: string, role: Role, at: int)
    ensures actorId == "" || |actorId| > 128 ==>
      Cancel(cfg, w, id, actorId, role, at) == Reply(w, Err(ValidationError))
    ensures 1 <= |actorId| <= 128 && (role == Approver || role == Consumer) ==>
      Cancel(cfg, w, id, actorId, role, at) == Reply(w, Err(Forbidden))
    ensures 1 <= |actorId| <= 128 && (role == Agent || role == Admin) && id !in w.book ==>
      Cancel(cfg, w, id, actorId, role, at) == Reply(w, Err(NotFound))
    ensures 1 <= |actorId| <= 128 && role == Agent && id in w.book && w.book[id].intent.agentId != actorId ==>
      Cancel(cfg, w, id, actorId, role, at) == Reply(w, Err(NotFound))
  {
  }

  // The requesting agent's cancellation, or an admin's, is accepted exactly when the proposal is
  // waiting, in time, and not behind the log; then it is on file.
  lemma {:induction false} CancelAnswers(cfg: Config, w: World, id: Id, actorId: string, role: Role, at: int)
    requires Reachable(cfg, w) && id in w.book && 1 <= |actorId| <= 128
    requires role == Admin || (role == Agent && actorId == w.book[id].intent.agentId)
    ensures var s, r := w.book[id], Cancel(cfg, w, id, actorId, role, at);
      && (r.result.Ok? <==>
            s.intent.status == AwaitingApproval && at < s.intent.expiresAt && NothingAfter(s, at))
      && (r.result.Ok? ==>
            r.result.value == id && OnlyChanged(w, r.world, id) && CancelledBy(s, r.world.book[id], actorId, at))
      && (s.intent.status != AwaitingApproval ==> r == Reply(w, Err(InvalidState)))
      && (s.intent.status == AwaitingApproval && at < s.intent.expiresAt && !NothingAfter(s, at) ==>
            r == Reply(w, Err(ClockRollbackDetected)))
  {
    hide Reachable, Green, CanAppend, NothingAfter, CancelledSlice, CancelledBy, ExpiredSlice;
    Stored(cfg, w, id, at);
    CancelledColumns(w.book[id], actorId, at);
  }

  // ----- mock observations -----

  ghost predicate Observed(s: Slice, s': Slice, o: Observation, actorId: string) {
    && s'.observations == s.observations + [o]
    && Logged(s, s', DemoMockObservationRecorded, actorId, o.observedAt)
    && Says(s', ObservationIdField) == Text(o.id) && Says(s', StatusField) == ObservationText(o.status)
    && Says(s', ProviderReferenceField) == OptionalText(o.providerReference)
    && Says(s', SourceField) == Text("DEMO_MOCK")
    && Says(s', RetryPermittedField) == Flag(false) && Says(s', MovesMoneyField) == Flag(false)
    && s'.intent == s.intent && s'.approvals == s.approvals && s'.envelopes == s.envelopes
  }

  lemma {:induction false} ObservedColumns(s: Slice, o: Observation, actorId: string)
    ensures Observed(s, ObservedSlice(s, o, actorId), o, actorId)
  {
    Appended(s.(observations := s.observations + [o]), DemoMockObservationRecorded, actorId, ObservationPayload(o),
             o.observedAt);
    hide Append;
  }

  // With observations in time order, the stream is frozen exactly when one of them is IN_DOUBT.
  lemma {:induction false} FrozenMeans(cfg: Config, w: World, id: Id)
    requires Reachable(cfg, w) && id in w.book
    ensures Frozen(w.book[id]) <==>
      exists k :: 0 <= k < |w.book[id].observations| && w.book[id].observations[k].status == InDoubt
  {
    hide Reachable, SliceInv, ObservationsConsistent, ObservedInOrder;
    ReachableInv(cfg, w);
    var s := w.book[id];
    SliceParts(cfg, w.registry, id, s);
    if k :| 0 <= k < |s.observations| && s.observations[k].status == InDoubt { InDoubtFreezes(s, k); }
  }

  lemma {:induction false} ObserveRefusesOutright(cfg: Config, w: World, id: Id, oid: Uuid, status: ObservationStatus,
                                                  reference: Option<string>, actorId: string, at: int)
    ensures status.OtherObservation? || (reference.Some? && (reference.value == "" || |reference.value| > 200)) ==>
      Observe(cfg, w, id, oid, status, reference, actorId, at) == Reply(w, Err(ValidationError))
    ensures !status.OtherObservation? && reference == None && id !in w.book ==>
      Observe(cfg, w, id, oid, status, reference, actorId, at) == Reply(w, Err(NotFound))
  {
  }

  // An observation of a known kind is accepted exactly when the proposal is authorized, none before
  // said IN_DOUBT, and it is not behind the log; then what was given is what is stored.
  lemma {:induction false} ObserveAnswers(cfg: Config, w: World, id: Id, oid: Uuid, status: ObservationStatus,
                                          reference: Option<string>, actorId: string, at: int)
    requires Reachable(cfg, w) && id in w.book && !status.OtherObservation?
    requires reference.Some? ==> 1 <= |reference.value| <= 200
    ensures var s, r := w.book[id], Observe(cfg, w, id, oid, status, reference, actorId, at);
      var doubted := exists k :: 0 <= k < |s.observations| && s.observations[k].status == InDoubt;
      && (r.result.Ok? <==> s.intent.status == AuthorizedNoDispatch && !doubted && NothingAfter(s, at))
      && (r.result.Ok? ==>
            && r.result.value == id && OnlyChanged(w, r.world, id)
            && Observed(s, r.world.book[id], Observation(oid, id, status, reference, at), actorId))
      && (s.intent.status != AuthorizedNoDispatch ==> r == Reply(w, Err(InvalidState)))
      && (s.intent.status == AuthorizedNoDispatch && doubted ==> r == Reply(w, Err(InDoubtFrozen)))
      && (s.intent.status == AuthorizedNoDispatch && !doubted && !NothingAfter(s, at) ==>
            r == Reply(w, Err(ClockRollbackDetected)))
  {
    hide Reachable, Green, CanAppend, NothingAfter, ObservedSlice, Observed, Frozen;
    Stored(cfg, w, id, at);
    FrozenMeans(cfg, w, id);
    ObservedColumns(w.book[id], Observation(oid, id, status, reference, at), actorId);
  }

  // ----- tampered evidence and the sweep, on stores of any content -----

  // A proposal whose evidence does not hold up stops every operation on it, which changes nothing: a
  // row its own hash does not cover is named as such, any other fault as a failure of integrity.
  lemma {:induction false} TamperedStops(cfg: Config, w: World, id: Id, actorId: string, decision: Decision,
                                         oid: Uuid, status: ObservationStatus, at: int)
    requires id in w.book && !Green(cfg, w.registry, w.book[id])
    requires 1 <= |actorId| <= 128 && !status.OtherObservation?
    ensures var row := w.book[id].intent;
      var covered := row.policyReasons.Some? && row.intentHash == OfIntent(PayloadFromRow(cfg, row));
      var stopped := Reply(w, Err(if covered then IntegrityFailure else IntentHashMismatchError));
      && Review(cfg, w, id, actorId, Admin, decision, at) == stopped
      && Review(cfg, w, id, actorId, Approver, decision, at) == stopped
      && Cancel(cfg, w, id, actorId, Admin, at) == stopped
      && (actorId == row.agentId ==> Cancel(cfg, w, id, actorId, Agent, at) == stopped)
      && Observe(cfg, w, id, oid, status, None, actorId, at) == stopped
  {
    hide Green;
  }

  lemma {:induction false} TamperedIssueStops(cfg: Config, w: World, id: Id, key: string, ttl: int, actorId: string,
                                              role: Role, at: int, eid: Uuid, nonce: Nonce)
    requires id in w.book && !Green(cfg, w.registry, w.book[id]) && 1 <= |cfg.audience| <= 512
    requires 1 <= |actorId| <= 128 && 1 <= |key| <= 128 && 1 <= ttl <= cfg.envelopeTtlSeconds
    requires role == Approver || role == Admin
    ensures var row := w.book[id].intent;
      var covered := row.policyReasons.Some? && row.intentHash == OfIntent(PayloadFromRow(cfg, row));
      Issue(cfg, w, id, cfg.audience, key, ttl, actorId, role, at, eid, nonce)
      == Reply(w, Err(if covered then IntegrityFailure else IntentHashMismatchError))
  {
    hide Green, FirstIssue, Reissue, FindForState;
  }

  // The sweep is all or nothing: it stops, changing nothing, exactly if some overdue proposal was
  // created or has an event after the reading.
  lemma {:induction false} SweepAllOrNothing(w: World, now: int)
    ensures var stuck := exists id ::
        && id in w.book && w.book[id].intent.status == AwaitingApproval && w.book[id].intent.expiresAt <= now
        && (now < w.book[id].intent.createdAt
            || (w.book[id].events != [] && now < Last(w.book[id].events).body.occurredAt));
      && (stuck ==> Sweep(w, now) == Reply(w, Err(ClockRollbackDetected)))
      && (!stuck ==> Sweep(w, now).result == Ok(()))
  {
    hide SweptBook;
  }

  // ----- restarting -----

  // A start changes no proposal and keeps every key row; the service is up afterwards exactly if the
  // start was not interrupted and its key id is not another key's.
  lemma {:induction false} RestartAnswers(cfg: Config, w: World, start: Start)
    requires Reachable(cfg, w)
    ensures var w' := Restart(cfg, w, start);
      var rows, key := w.registry.rows, start.signer;
      var jwk := Jwk(key.keyId, key.keyPair);
      && w'.book == w.book
      && (w'.signer.Some? <==> !start.stopsBetween && (key.keyId in rows ==> rows[key.keyId].jwk == jwk))
      && (w'.signer.Some? ==> w'.signer == Some(key))
      && w'.registry.rows ==
           (if w'.signer.None? || key.keyId in rows then rows
            else rows[key.keyId := KeyRow(jwk, start.at,
                                          Hmac(cfg.receiptSecret, KeyAttestation(key.keyId, jwk, start.at)))])
  {
    hide Reachable, SliceInv, RegistryInv, RegistryValid, InitializeSchema, RegisterKey, KeyRegistered, RegistryGrows;
    ReachableInv(cfg, w);
    var history := w.book != map[];
    StartupOutcome(cfg, w.registry, history, start.signer, start.at);
    RegistrationAnswers(cfg, InitializeSchema(cfg, w.registry, history).value, start.signer, start.at);
  }
}
