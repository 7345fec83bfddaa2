// ParimitService over its tables: each transaction works on the tables in place and is
// undone whole when it raises. Every method is tied to the operation of the same name on
// the stored world, for tables of any consistent content - tampered ones included.
module Service {
  import opened Basics
  import opened Evidence
  import opened Integrity
  import opened IntegrityChecker
  import opened Exposure
  import opened Operations
  import opened SigningKeys
  import opened Store
  import opened Tables
  import opened Calls

  function WithSlice(w: World, id: Id, s: Slice): World { w.(book := w.book[id := s]) }

  ghost function PartlySwept(book: Book, done: set<Id>, now: int): Book {
    map id | id in book :: if id in done then ExpiredSlice(book[id], now) else book[id]
  }

  lemma {:induction false} NewIntentKeys(cfg: Config, id: Id, p: Proposal, d: PolicyDecision, createdAt: int)
    ensures var row := NewIntent(cfg, id, p, d, createdAt);
      row.id == id && row.createdAt == createdAt && UsesKey(row, cfg, p.agentId, p.idempotencyKey)
  {
  }

  lemma {:induction false} ApprovesSnoc(rows: seq<Approval>, a: Approval)
    ensures Approves(rows + [a]) == Approves(rows) + (if a.decision == Approve then 1 else 0)
  {
    assert (rows + [a])[..|rows|] == rows;
  }

  lemma {:induction false} ApprovesStep(rows: seq<Approval>, i: nat, id: Id)
    requires i < |rows|
    ensures Approves(RowsOf(rows[..i + 1], ApprovalOwner, id))
         == Approves(RowsOf(rows[..i], ApprovalOwner, id))
           + (if rows[i].intentId == id && rows[i].decision == Approve then 1 else 0)
  {
    hide RowsOf, Approves;
    RowsOfSnoc(rows[..i], rows[i], ApprovalOwner, id);
    assert rows[..i + 1] == rows[..i] + [rows[i]];
    ApprovesSnoc(RowsOf(rows[..i], ApprovalOwner, id), rows[i]);
    assert RowsOf(rows[..i], ApprovalOwner, id) + [] == RowsOf(rows[..i], ApprovalOwner, id);
  }

  function LatestOf(rows: seq<Observation>): Option<Observation> {
    if rows == [] then None else Some(rows[LatestIndex(rows)])
  }

  lemma {:induction false} LatestOfNone(id: Id)
    ensures LatestOf(RowsOf([], ObservationOwner, id)) == None
  {
  }

  lemma {:induction false} LatestOfSnoc(rows: seq<Observation>, o: Observation)
    ensures var before := LatestOf(rows);
      LatestOf(rows + [o]) == if before.None? || before.value.observedAt <= o.observedAt then Some(o) else before
  {
    if rows != [] { assert (rows + [o])[..|rows|] == rows; }
  }

  lemma {:induction false} LatestStep(rows: seq<Observation>, i: nat, id: Id)
    requires i < |rows|
    ensures var latest := LatestOf(RowsOf(rows[..i], ObservationOwner, id));
      LatestOf(RowsOf(rows[..i + 1], ObservationOwner, id))
      == if rows[i].intentId == id && (latest.None? || latest.value.observedAt <= rows[i].observedAt)
         then Some(rows[i]) else latest
  {
    hide RowsOf, LatestOf;
    RowsOfSnoc(rows[..i], rows[i], ObservationOwner, id);
    assert rows[..i + 1] == rows[..i] + [rows[i]];
    LatestOfSnoc(RowsOf(rows[..i], ObservationOwner, id), rows[i]);
    assert RowsOf(rows[..i], ObservationOwner, id) + [] == RowsOf(rows[..i], ObservationOwner, id);
  }

  lemma {:induction false} KeyIsNew(db: Database, eid: Id, nonce: Nonce)
    requires KeysFree(db, eid, nonce)
    ensures eid !in db.envelopes
  {
  }

  // UNIQUE (tenant_id, intent_id, state_version, audience) cannot fire on a first issue.
  lemma {:induction false} NoSameState(cfg: Config, db: Database, id: Id, env: Envelope)
    requires Consistent(cfg.tenantId, db) && id in db.intents
    requires FindForState(cfg, SliceOf(db, id), cfg.audience).None?
    requires env.intentId == id && env.stateVersion == SliceOf(db, id).intent.stateVersion
    requires env.audience == cfg.audience && env.tenantId == cfg.tenantId
    ensures forall e :: e in db.envelopes ==> !SameState(env, db.envelopes[e])
  {
    var s := SliceOf(db, id);
    forall e | e in db.envelopes ensures !SameState(env, db.envelopes[e]) {
      assert e in s.envelopes ==> !ForState(s.envelopes[e], cfg, s, cfg.audience);
    }
  }

  lemma {:induction false} IssuedState(cfg: Config, s: Slice, eid: Id, nonce: Nonce, ttl: int, at: int, key: string,
                                       signer: SigningKey)
    requires s.intent.policyReasons.Some? && EnvelopeApprovals(s) != []
    ensures var env := NewEnvelope(cfg, s, IssuedClaims(cfg, s, eid, nonce, ttl, at), key, signer);
      env.intentId == s.intent.id && env.stateVersion == s.intent.stateVersion && env.audience == cfg.audience
      && env.tenantId == cfg.tenantId && env.issuedAt == at
  {
    hide EnvelopeApprovals;
  }

  lemma {:induction false} NotInSlice(cfg: Config, db: Database, id: Id, audience: string)
    requires Consistent(cfg.tenantId, db) && id in db.intents
    requires forall e :: e in db.envelopes && db.envelopes[e].intentId == id ==>
      !ForState(db.envelopes[e], cfg, SliceOf(db, id), audience)
    ensures FindForState(cfg, SliceOf(db, id), audience).None?
  {
  }

  lemma {:induction false} NothingSwept(book: Book, now: int)
    ensures PartlySwept(book, {}, now) == book
  {
    hide ExpiredSlice;
  }

  lemma {:induction false} OneMoreSwept(book: Book, done: set<Id>, id: Id, now: int)
    requires id in book && id !in done
    ensures PartlySwept(book, done, now)[id := ExpiredSlice(book[id], now)] == PartlySwept(book, done + {id}, now)
  {
    hide ExpiredSlice;
  }

  lemma {:induction false} BlockedSweep(w: World, id: Id, now: int)
    requires id in w.book && Due(w.book[id], now) && !CanAppend(w.book[id], now)
    ensures Sweep(w, now) == Reply(w, Err(ClockRollbackDetected))
  {
    hide CanAppend;
    assert SweepBlocked(w.book, now);
  }

  lemma {:induction false} WholeSweep(w: World, due: set<Id>, now: int)
    requires forall id :: id in w.book ==> (Due(w.book[id], now) <==> id in due)
    requires forall id :: id in due ==> id in w.book && CanAppend(w.book[id], now)
    ensures Sweep(w, now) == Reply(w.(book := PartlySwept(w.book, due, now)), Ok(()))
  {
    hide CanAppend, ExpiredSlice;
    assert PartlySwept(w.book, due, now) == SweptBook(w.book, now);
  }

  class ParimitService {
    const cfg: Config
    var intents: map<Id, Intent>
    var approvals: seq<Approval>
    var observations: seq<Observation>
    var auditEvents: seq<AuditEvent>
    var envelopes: map<Id, Envelope>
    var registry: Registry
    var signer: Option<SigningKey>

    function Db(): Database
      reads this
    {
      Database(intents, approvals, observations, auditEvents, envelopes)
    }

    ghost predicate Valid()
      reads this
    {
      Consistent(cfg.tenantId, Db())
    }

    // The stored world.
    ghost function Abs(): World
      reads this
    {
      World(BookOf(Db()), registry, signer)
    }

    // A new, empty database; the process has not started.
    constructor (cfg: Config)
      ensures Valid() && this.cfg == cfg && Abs() == EMPTY_WORLD
    {
      this.cfg := cfg;
      intents, approvals, observations, auditEvents, envelopes := map[], [], [], [], map[];
      registry, signer := Registry(map[], None, None), None;
    }

    // ROLLBACK
    method Rollback(saved: Database)
      modifies this`intents, this`approvals, this`observations, this`auditEvents, this`envelopes
      ensures Db() == saved
    {
      intents, approvals, observations := saved.intents, saved.approvals, saved.observations;
      auditEvents, envelopes := saved.auditEvents, saved.envelopes;
    }

    // ----- appendAudit -----

    // ORDER BY sequence DESC LIMIT 1
    method LatestEvent(id: Id) returns (latest: Option<AuditEvent>)
      ensures var events := RowsOf(auditEvents, EventOwner, id);
        latest == if events == [] then None else Some(Last(events))
    {
      var i := |auditEvents|;
      assert auditEvents[..i] == auditEvents;
      while i > 0
        invariant 0 <= i <= |auditEvents|
        invariant RowsOf(auditEvents[..i], EventOwner, id) == RowsOf(auditEvents, EventOwner, id)
      {
        assert auditEvents[..i][..i - 1] == auditEvents[..i - 1];
        if auditEvents[i - 1].body.intentId == id { return Some(auditEvents[i - 1]); }
        i := i - 1;
      }
      return None;
    }

    method AppendAudit(id: Id, eventType: EventType, actorId: string, payload: Payload, at: int) returns (r: Result<()>)
      requires Valid()
      modifies this`auditEvents
      ensures Valid()
      ensures r == if id in intents && CanAppend(old(Abs()).book[id], at) then Ok(()) else Err(ClockRollbackDetected)
      ensures r.Ok? ==> Abs() == WithSlice(old(Abs()), id, Append(old(Abs()).book[id], eventType, actorId, payload, at))
      ensures r.Err? ==> Abs() == old(Abs())
    {
      hide RowsOf, Consistent, EnvelopesOf;
      var previous := LatestEvent(id);
      if id !in intents || at < intents[id].createdAt || (previous.Some? && at < previous.value.body.occurredAt) {
        return Err(ClockRollbackDetected);
      }
      var tip := if previous.Some? then previous.value.eventHash else Genesis;
      var body := EventBody(id, eventType, actorId, payload, at, tip);
      IntentIds(cfg.tenantId, Db(), id);
      EventInserted(cfg.tenantId, Db(), AuditEvent(body, OfEvent(body)));
      auditEvents := auditEvents + [AuditEvent(body, OfEvent(body))];
      r := Ok(());
    }

    // UPDATE intents SET status = ?, state_version = state_version + 1 WHERE id = ? AND status = 'AWAITING_APPROVAL'
    method MoveAwaiting(id: Id, status: Status) returns (changed: bool)
      requires Valid()
      modifies this`intents
      ensures Valid() && intents.Keys == old(intents).Keys
      ensures changed == (id in old(intents) && old(intents)[id].status == AwaitingApproval)
      ensures changed ==> Abs() == WithSlice(old(Abs()), id, Moved(old(Abs()).book[id], status))
      ensures !changed ==> Abs() == old(Abs())
    {
      hide RowsOf, Consistent, EnvelopesOf;
      changed := id in intents && intents[id].status == AwaitingApproval;
      if changed {
        var row := intents[id].(status := status, stateVersion := intents[id].stateVersion + 1);
        IntentIds(cfg.tenantId, Db(), id);
        IntentUpdated(cfg.tenantId, Db(), id, row);
        intents := intents[id := row];
      }
    }

    // ----- the lazy expiry sweep -----

    method ExpireDueIntents(now: int) returns (r: Result<()>)
      requires Valid()
      modifies this`intents, this`approvals, this`observations, this`auditEvents, this`envelopes
      ensures Valid() && Reply(Abs(), r) == Sweep(old(Abs()), now)
    {
      hide RowsOf, Consistent, EnvelopesOf, ExpiredSlice, CanAppend;
      ghost var book := Abs().book;
      var saved := Db();
      var due := set id | id in intents && intents[id].status == AwaitingApproval && intents[id].expiresAt <= now;
      var rest := due;
      r := Ok(());
      assert forall id :: id in book ==> (Due(book[id], now) <==> id in due);
      hide Sweep, SweepBlocked;
      NothingSwept(book, now);
      while rest != {}
        invariant rest <= due && Valid() && r == Ok(())
        invariant Abs() == old(Abs()).(book := PartlySwept(book, due - rest, now))
        invariant forall id :: id in due - rest ==> CanAppend(book[id], now)
      {
        var id :| id in rest;
        assert id in Abs().book && Abs().book[id] == book[id] && Due(book[id], now);
        r := this.ExpireOne(id, now);
        if r.Err? {
          Rollback(saved);
          BlockedSweep(old(Abs()), id, now);
          return;
        }
        OneMoreSwept(book, due - rest, id, now);
        assert due - (rest - {id}) == (due - rest) + {id};
        rest := rest - {id};
      }
      assert due - rest == due;
      WholeSweep(old(Abs()), due, now);
    }

    // One overdue intent: the status update and its event.
    method ExpireOne(id: Id, at: int) returns (r: Result<()>)
      requires Valid() && id in intents && intents[id].status == AwaitingApproval
      modifies this`intents, this`auditEvents
      ensures Valid()
      ensures r == if CanAppend(old(Abs()).book[id], at) then Ok(()) else Err(ClockRollbackDetected)
      ensures r.Ok? ==> Abs() == WithSlice(old(Abs()), id, ExpiredSlice(old(Abs()).book[id], at))
    {
      hide RowsOf, Consistent, EnvelopesOf;
      var changed := MoveAwaiting(id, Expired);
      assert changed;
      r := AppendAudit(id, ProposalExpired, "parimit-clock", StatusPayload(Expired), at);
    }

    // ----- createIntent -----

    // SUM(amount_minor) over the agent's live intents since UTC midnight
    method ExposureSince(agentId: string, at: int) returns (sum: int)
      ensures sum == DailyExposure(Abs().book, cfg.tenantId, agentId, at)
    {
      hide RowsOf, EnvelopesOf;
      var rest := intents.Keys;
      sum := 0;
      assert Abs().book.Keys == rest;
      while rest != {}
        invariant rest <= intents.Keys
        invariant LiveSum(Abs().book, Abs().book.Keys, cfg.tenantId, agentId, DayStart(at), None)
               == sum + LiveSum(Abs().book, rest, cfg.tenantId, agentId, DayStart(at), None)
      {
        var id :| id in rest;
        SumSplit(Abs().book, rest, id, cfg.tenantId, agentId, DayStart(at), None);
        var row := intents[id];
        if row.agentId == agentId && row.tenantId == cfg.tenantId && DayStart(at) <= row.createdAt
           && row.policyAllowed && IsLive(row.status)
        {
          sum := sum + row.amountMinor;
        }
        rest := rest - {id};
      }
    }

    method CreateTransaction(p: Proposal, newId: Uuid, policyAt: int, createdAt: int) returns (r: Result<Id>)
      requires Valid()
      modifies this
      ensures Valid() && Reply(Abs(), r) == Create(cfg, old(Abs()), p, newId, policyAt, createdAt)
    {
      hide RowsOf, Consistent, EnvelopesOf, DailyExposure, ProposalOk, DecidePolicy, NewSlice;
      if !ProposalOk(cfg, p) { return Err(ValidationError); }
      KeyOwner(cfg, Db(), p.agentId, p.idempotencyKey);
      if existing :| existing in intents && UsesKey(intents[existing], cfg, p.agentId, p.idempotencyKey) {
        return if intents[existing].requestFingerprint == OfRequest(p) then Ok(existing) else Err(IdempotencyConflict);
      }
      var exposure := ExposureSince(p.agentId, policyAt);
      var d := DecidePolicy(cfg, exposure, p);
      if newId in intents { return Err(SqlConstraint); }
      RecordProposal(newId, p, d, createdAt);
      r := Ok(newId);
    }

    // The proposal's row and its first event.
    method RecordProposal(newId: Uuid, p: Proposal, d: PolicyDecision, createdAt: int)
      requires Valid() && newId !in intents
      requires forall id :: id in intents ==> !UsesKey(intents[id], cfg, p.agentId, p.idempotencyKey)
      modifies this
      ensures Valid() && Abs() == WithSlice(old(Abs()), newId, NewSlice(cfg, newId, p, d, createdAt))
    {
      hide RowsOf, Consistent, EnvelopesOf, NewIntent, InitialPayload;
      var row := NewIntent(cfg, newId, p, d, createdAt);
      NewIntentKeys(cfg, newId, p, d, createdAt);
      IntentInserted(cfg.tenantId, Db(), newId, row);
      intents := intents[newId := row];
      var appended := AppendAudit(newId, if d.allowed then ProposalCreated else ProposalPolicyDenied, p.agentId,
                                  InitialPayload(row, d), createdAt);
      assert appended.Ok?;
    }

    // ----- approveIntent and cancelIntent -----

    // assertStoredIntegrity
    method CheckStored(id: Id) returns (error: Option<Error>)
      requires id in intents
      ensures var s := SliceOf(Db(), id);
        error == if Green(cfg, registry, s) then None else Some(IntegrityError(cfg, s))
    {
      hide RowsOf, EnvelopesOf, IntentHashValid, StateConsistent;
      var report := VerifySlice(cfg, registry, SliceOf(Db(), id));
      error := if report.valid then None
               else Some(if report.intentHashValid then IntegrityFailure else IntentHashMismatchError);
    }

    // SELECT COUNT(*) ... WHERE decision = 'APPROVE'
    method CountApproves(id: Id) returns (total: nat)
      ensures total == Approves(RowsOf(approvals, ApprovalOwner, id))
    {
      total := 0;
      var i := 0;
      while i < |approvals|
        invariant i <= |approvals| && total == Approves(RowsOf(approvals[..i], ApprovalOwner, id))
      {
        ApprovesStep(approvals, i, id);
        if approvals[i].intentId == id && approvals[i].decision == Approve { total := total + 1; }
        i := i + 1;
      }
      assert approvals[..i] == approvals;
    }

    method ExpireLate(id: Id, at: int) returns (r: Result<Id>)
      requires Valid() && id in intents && intents[id].status == AwaitingApproval
      modifies this
      ensures Valid() && Reply(Abs(), r) == EnforceDeadline(old(Abs()), id, at)
    {
      hide RowsOf, Consistent, EnvelopesOf, ExpiredSlice;
      var saved := Db();
      var expired := ExpireOne(id, at);
      if expired.Err? {
        Rollback(saved);
        return Err(expired.error);
      }
      r := Err(ProposalExpiredError);
    }

    method ReviewTransaction(id: Id, actorId: string, role: Role, decision: Decision, at: int) returns (r: Result<Id>)
      requires Valid()
      modifies this
      ensures Valid() && Reply(Abs(), r) == Review(cfg, old(Abs()), id, actorId, role, decision, at)
    {
      hide RowsOf, Consistent, EnvelopesOf, Green, IntegrityError, Approves, HasReviewed, BookOf, SliceOf;
      if !IdentifierOk(actorId) { return Err(ValidationError); }
      if !IsHumanRole(role) { return Err(HumanApproverRequired); }
      InBook(Db(), id);
      if id !in intents { return Err(NotFound); }
      RowInBook(cfg.tenantId, Db(), id);
      var s := SliceOf(Db(), id);
      var broken := CheckStored(id);
      if broken.Some? { return Err(broken.value); }
      if intents[id].agentId == actorId { return Err(AgentCannotApprove); }
      if intents[id].status != AwaitingApproval { return Err(InvalidState); }
      if intents[id].expiresAt <= at {
        r := ExpireLate(id, at);
        return;
      }
      if HasReviewed(s, actorId) { return Err(DuplicateApprover); }
      r := RecordDecision(id, actorId, role, decision, at);
    }

    // The approval row, the status it leads to, and the event; nothing if the clock ran backwards.
    method RecordDecision(id: Id, actorId: string, role: Role, decision: Decision, at: int) returns (r: Result<Id>)
      requires Valid() && id in intents && intents[id].status == AwaitingApproval
      modifies this
      ensures Valid()
      ensures var s := old(Abs()).book[id];
        Reply(Abs(), r) == if !CanAppend(s, at) then Reply(old(Abs()), Err(ClockRollbackDetected))
                           else Reply(WithSlice(old(Abs()), id, ReviewedSlice(cfg, s, actorId, role, decision, at)),
                                      Ok(id))
    {
      hide RowsOf, Consistent, EnvelopesOf, Approves, ReviewPayload, BookOf, SliceOf;
      var saved := Db();
      RowInBook(cfg.tenantId, Db(), id);
      ghost var s := Abs().book[id];
      var receipt := Hmac(cfg.receiptSecret, ApprovalReceipt(id, intents[id].intentHash, actorId, role, decision, at));
      var a := Approval(id, actorId, role, decision, intents[id].intentHash, at, receipt);
      InsertApproval(a);
      var outcome := DecideOutcome(id, decision);
      ApprovesSnoc(s.approvals, a);
      RowInBook(cfg.tenantId, Db(), id);
      var changed := MoveAwaiting(id, outcome);
      assert changed;
      var appended := AppendAudit(id, ReviewType(decision), actorId, ReviewPayload(a, outcome), at);
      if appended.Err? {
        Rollback(saved);
        return Err(appended.error);
      }
      r := Ok(id);
    }

    method InsertApproval(a: Approval)
      requires Valid() && a.intentId in intents
      modifies this`approvals
      ensures Valid()
      ensures var s := old(Abs()).book[a.intentId];
        Abs() == WithSlice(old(Abs()), a.intentId, s.(approvals := s.approvals + [a]))
    {
      hide RowsOf, Consistent, EnvelopesOf;
      ApprovalInserted(cfg.tenantId, Db(), a);
      approvals := approvals + [a];
    }

    method DecideOutcome(id: Id, decision: Decision) returns (outcome: Status)
      requires Valid() && id in intents
      ensures var s := Abs().book[id];
        outcome == if decision == Reject then Rejected
                   else if Approves(s.approvals) >= s.intent.requiredApprovals then AuthorizedNoDispatch
                   else AwaitingApproval
    {
      hide RowsOf, Consistent, EnvelopesOf, Approves;
      outcome := Rejected;
      if decision == Approve {
        var total := CountApproves(id);
        outcome := if total >= intents[id].requiredApprovals then AuthorizedNoDispatch else AwaitingApproval;
      }
    }

    method CancelTransaction(id: Id, actorId: string, role: Role, at: int) returns (r: Result<Id>)
      requires Valid()
      modifies this
      ensures Valid() && Reply(Abs(), r) == Cancel(cfg, old(Abs()), id, actorId, role, at)
    {
      hide RowsOf, Consistent, EnvelopesOf, Green, IntegrityError, StatusPayload, BookOf, SliceOf;
      if !IdentifierOk(actorId) { return Err(ValidationError); }
      if !role.Agent? && !role.Admin? { return Err(Forbidden); }
      InBook(Db(), id);
      if id in intents { RowInBook(cfg.tenantId, Db(), id); }
      if id !in intents || (role.Agent? && intents[id].agentId != actorId) { return Err(NotFound); }
      var broken := CheckStored(id);
      if broken.Some? { return Err(broken.value); }
      if intents[id].status != AwaitingApproval { return Err(InvalidState); }
      if intents[id].expiresAt <= at {
        r := ExpireLate(id, at);
        return;
      }
      var saved := Db();
      var changed := MoveAwaiting(id, Cancelled);
      assert changed;
      var appended := AppendAudit(id, ProposalCancelled, actorId, StatusPayload(Cancelled), at);
      if appended.Err? {
        Rollback(saved);
        return Err(appended.error);
      }
      r := Ok(id);
    }

    // ----- recordMockObservation -----

    // ORDER BY observed_at DESC, rowid DESC LIMIT 1
    method LatestObservation(id: Id) returns (latest: Option<Observation>)
      ensures latest == LatestOf(RowsOf(observations, ObservationOwner, id))
    {
      hide RowsOf, LatestOf;
      LatestOfNone(id);
      latest := None;
      var i := 0;
      while i < |observations|
        invariant i <= |observations|
        invariant latest == LatestOf(RowsOf(observations[..i], ObservationOwner, id))
      {
        LatestStep(observations, i, id);
        if observations[i].intentId == id && (latest.None? || latest.value.observedAt <= observations[i].observedAt) {
          latest := Some(observations[i]);
        }
        i := i + 1;
      }
      assert observations[..i] == observations;
    }

    method InsertObservation(o: Observation)
      requires Valid() && o.intentId in intents
      modifies this`observations
      ensures Valid()
      ensures var s := old(Abs()).book[o.intentId];
        Abs() == WithSlice(old(Abs()), o.intentId, s.(observations := s.observations + [o]))
    {
      hide RowsOf, Consistent, EnvelopesOf;
      ObservationInserted(cfg.tenantId, Db(), o);
      observations := observations + [o];
    }

    method ObserveTransaction(id: Id, oid: Uuid, status: ObservationStatus, providerReference: Option<string>,
                              actorId: string, at: int) returns (r: Result<Id>)
      requires Valid()
      modifies this
      ensures Valid() && Reply(Abs(), r) == Observe(cfg, old(Abs()), id, oid, status, providerReference, actorId, at)
    {
      hide RowsOf, Consistent, EnvelopesOf, Green, IntegrityError, LatestIndex, ObservationPayload, BookOf, SliceOf;
      if !ObservationOk(status, providerReference) { return Err(ValidationError); }
      InBook(Db(), id);
      if id !in intents { return Err(NotFound); }
      RowInBook(cfg.tenantId, Db(), id);
      var broken := CheckStored(id);
      if broken.Some? { return Err(broken.value); }
      if intents[id].status != AuthorizedNoDispatch { return Err(InvalidState); }
      var latest := LatestObservation(id);
      if latest.Some? && latest.value.status.InDoubt? { return Err(InDoubtFrozen); }
      r := RecordObservation(id, Observation(oid, id, status, providerReference, at), actorId);
    }

    // The observation row and its event, or neither.
    method RecordObservation(id: Id, o: Observation, actorId: string) returns (r: Result<Id>)
      requires Valid() && id in intents && o.intentId == id
      modifies this
      ensures Valid()
      ensures var s := old(Abs()).book[id];
        Reply(Abs(), r) == if !CanAppend(s, o.observedAt) then Reply(old(Abs()), Err(ClockRollbackDetected))
                           else Reply(WithSlice(old(Abs()), id, ObservedSlice(s, o, actorId)), Ok(id))
    {
      hide RowsOf, Consistent, EnvelopesOf, ObservationPayload, BookOf, SliceOf;
      RowInBook(cfg.tenantId, Db(), id);
      var saved := Db();
      InsertObservation(o);
      var appended := AppendAudit(id, DemoMockObservationRecorded, actorId, ObservationPayload(o), o.observedAt);
      if appended.Err? {
        Rollback(saved);
        return Err(appended.error);
      }
      r := Ok(id);
    }

    // ----- evidence envelopes -----

    // envelopeViewFromRow
    method ViewEnvelope(id: Id, eid: Id) returns (r: Result<Id>)
      requires Valid() && id in intents && eid in envelopes && envelopes[eid].intentId == id
      ensures eid in SliceOf(Db(), id).envelopes && r == View(cfg, registry, SliceOf(Db(), id), eid)
    {
      hide RowsOf, Consistent, Green, VerifiedClaims, IntentHashValid, StateConsistent;
      var env := envelopes[eid];
      var claims := VerifyClaims(cfg, registry, env.keyId, env.compact);
      if claims.None? || env.claimsHash != OfClaims(claims.value) || env.nonceHash != OfText(claims.value.nonce) {
        return Err(IntegrityFailure);
      }
      var report := VerifySlice(cfg, registry, SliceOf(Db(), id));
      r := if report.valid then Ok(eid) else Err(IntegrityFailure);
    }

    // An envelope already exists for this intent state and audience.
    method ReplayIssue(id: Id, eid: Id, key: string, ttl: int) returns (r: Result<Id>)
      requires Valid() && id in intents && eid in envelopes && envelopes[eid].intentId == id
      ensures eid in SliceOf(Db(), id).envelopes
      ensures r == Reissue(cfg, registry, SliceOf(Db(), id), eid, key, ttl)
    {
      hide RowsOf, Consistent, StrictClaims, View;
      var env := envelopes[eid];
      if env.issuanceKey != key { return Err(IdempotencyConflict); }
      var claims := ParsedClaims(env.compact);
      if claims.None? { return Err(MalformedEnvelope); }
      if claims.value.exp - claims.value.iat != ttl { return Err(IdempotencyConflict); }
      r := ViewEnvelope(id, eid);
    }

    // The row and its event, or neither.
    method WriteEnvelope(id: Id, eid: Id, env: Envelope, actorId: string) returns (r: Result<Id>)
      requires Valid() && id in intents && env.intentId == id && eid !in envelopes
      requires forall e :: e in envelopes ==> !SameState(env, envelopes[e])
      modifies this
      ensures Valid()
      ensures r.Err? <==> !CanAppend(old(Abs()).book[id], env.issuedAt)
      ensures r.Err? ==> r == Err(ClockRollbackDetected) && Abs() == old(Abs())
      ensures r.Ok? ==> Abs() == WithSlice(old(Abs()), id, IssuedSlice(old(Abs()).book[id], eid, env, actorId))
      ensures r.Ok? ==> r == Ok(eid) && id in intents && eid in envelopes && envelopes[eid].intentId == id
    {
      hide RowsOf, Consistent, EnvelopesOf, IssuePayload;
      var saved := Db();
      EnvelopeWritten(cfg.tenantId, Db(), eid, env);
      envelopes := envelopes[eid := env];
      var appended := AppendAudit(id, EvidenceEnvelopeIssued, actorId, IssuePayload(eid, env), env.issuedAt);
      if appended.Err? {
        Rollback(saved);
        return Err(appended.error);
      }
      r := Ok(eid);
    }

    method IssueFresh(id: Id, key: string, ttl: int, actorId: string, at: int, eid: Uuid, nonce: Nonce)
      returns (r: Result<Id>)
      requires Valid() && id in intents && FindForState(cfg, SliceOf(Db(), id), cfg.audience).None?
      modifies this
      ensures Valid()
      ensures Reply(Abs(), r) == FirstIssue(cfg, old(Abs()), id, key, ttl, actorId, at, eid, nonce)
    {
      hide RowsOf, Consistent, Green, View, StrictClaims, IssuedClaims, IssuedSlice, EnvelopeApprovals, EnvelopesOf,
           EnvelopeKeysFree, FindForState, SliceOf, BookOf, KeysFree;
      RowInBook(cfg.tenantId, Db(), id);
      var s := SliceOf(Db(), id);
      var deadline := intents[id].expiresAt;
      if deadline <= at || deadline < at + ttl * 1000 { return Err(EnvelopeExpiryExceedsIntent); }
      var listed := EnvelopeApprovals(s);
      if |listed| != intents[id].requiredApprovals || intents[id].requiredApprovals < 1 {
        return Err(IntegrityFailure);
      }
      if at < Last(listed).decidedAt { return Err(EnvelopeInvalid); }
      if signer.None? || intents[id].policyReasons.None? { return Err(IntegrityFailure); }
      var c := IssuedClaims(cfg, s, eid, nonce, ttl, at);
      if !StrictClaims(c) { return Err(IntegrityFailure); }
      var env := NewEnvelope(cfg, s, c, key, signer.value);
      KeysFreeInBook(cfg.tenantId, Db(), eid, nonce);
      if !KeysFree(Db(), eid, nonce) || signer.value.keyId !in registry.rows { return Err(SqlConstraint); }
      KeyIsNew(Db(), eid, nonce);
      IssuedState(cfg, s, eid, nonce, ttl, at, key, signer.value);
      NoSameState(cfg, Db(), id, env);
      r := WriteEnvelope(id, eid, env, actorId);
      if r.Ok? {
        RowInBook(cfg.tenantId, Db(), id);
        r := ViewEnvelope(id, eid);
      }
    }

    method IssueAuthorizationEnvelope(id: Id, audience: string, key: string, ttl: int, actorId: string, role: Role,
                                      at: int, eid: Uuid, nonce: Nonce) returns (r: Result<Id>)
      requires Valid()
      modifies this
      ensures Valid()
      ensures Reply(Abs(), r) == Issue(cfg, old(Abs()), id, audience, key, ttl, actorId, role, at, eid, nonce)
    {
      hide RowsOf, Consistent, Green, View, StrictClaims, IssuedClaims, IssuedSlice, EnvelopeApprovals,
           EnvelopeKeysFree, IntegrityError, ParsedClaims, NewEnvelope, FindForState, SliceOf, BookOf;
      if !AudienceOk(audience) { return Err(ValidationError); }
      if audience != cfg.audience { return Err(EnvelopeAudienceNotAllowed); }
      if !(1 <= ttl <= cfg.envelopeTtlSeconds) || !IdentifierOk(key) || !IdentifierOk(actorId) {
        return Err(ValidationError);
      }
      if !IsHumanRole(role) { return Err(Forbidden); }
      InBook(Db(), id);
      if id !in intents { return Err(NotFound); }
      RowInBook(cfg.tenantId, Db(), id);
      var broken := CheckStored(id);
      if broken.Some? { return Err(broken.value); }
      if intents[id].status != AuthorizedNoDispatch { return Err(InvalidState); }
      StateOwner(cfg, Db(), id, audience);
      if existing :| existing in envelopes && envelopes[existing].intentId == id
                     && ForState(envelopes[existing], cfg, SliceOf(Db(), id), audience) {
        r := ReplayIssue(id, existing, key, ttl);
        return;
      }
      NotInSlice(cfg, Db(), id, audience);
      r := IssueFresh(id, key, ttl, actorId, at, eid, nonce);
    }

    // The claimed intent, its approvals and its version, and the one event that recorded the issue.
    method CheckBinding(compact: CompactJws, c: Claims) returns (ok: bool)
      requires Valid()
      ensures ok == BindingValid(cfg, Abs(), compact, c)
    {
      hide RowsOf, Consistent, Green, EnvelopeApprovals, BookOf, SliceOf, IntentHashValid, StateConsistent;
      var id := c.snapshot.id;
      InBook(Db(), id);
      if id !in intents { return false; }
      RowInBook(cfg.tenantId, Db(), id);
      var s := SliceOf(Db(), id);
      var report := VerifySlice(cfg, registry, s);
      var issues := CountMarks(IssueEventMarks(s.events, c, compact));
      var row := s.intent;
      ok := report.valid
            && row.status == AuthorizedNoDispatch && row.tenantId == c.tenantId
            && c.oidc == cfg.oidc && c.verified == cfg.oidc && c.trustDomain == cfg.trustDomain
            && row.intentHash == c.intentDigest && row.stateVersion == c.authorizationStateVersion
            && row.policyReasons.Some? && PayloadFromRow(cfg, row) == c.snapshot
            && OfIntent(PayloadFromRow(cfg, row)) == c.intentDigest
            && OfPolicySnapshot(c.snapshot.policy) == c.policyDigest
            && EnvelopeApprovals(s) == c.approvals
            && OfApprovalSet(EnvelopeApprovals(s)) == c.approvalSetDigest
            && c.subjectIntent == id && issues == 1;
    }

    // The stored row with the claimed id: whether it is this very artifact, and whether it is consumed.
    method CheckStoredArtifact(compact: CompactJws, c: Claims) returns (ok: bool, consumption: Consumption)
      requires Valid()
      ensures ok == LocallyIssued(cfg, Abs().book, compact, c)
      ensures consumption == StoredConsumption(cfg, Abs().book, c.jti)
    {
      hide Consistent, RowsOf;
      EnvelopeOwner(cfg.tenantId, Db(), c.jti);
      if c.jti in envelopes { EnvelopeInBook(cfg.tenantId, Db(), c.jti); }
      var found := c.jti in envelopes && envelopes[c.jti].tenantId == cfg.tenantId;
      ok := found && ExactArtifact(envelopes[c.jti], compact, c);
      consumption := if found then ConsumptionOf(envelopes[c.jti]) else NotStored;
    }

    method VerifyAuthorizationEnvelope(compact: CompactJws, audience: string, now: int) returns (v: Verification)
      requires Valid()
      ensures v == Verify(cfg, Abs(), compact, audience, now)
    {
      hide Consistent, RegistryValid, StrictClaims, LocallyIssued, BindingValid, TimeValidNow, BookOf, When,
           SignatureVerifies, ParsedClaims;
      var trusted := CheckRegistry(cfg, registry);
      var signed := compact.Jws? && trusted && compact.kid in registry.rows
        && SignatureVerifies(compact, registry.rows[compact.kid].jwk);
      var parsed := ParsedClaims(compact);
      if !signed || parsed.None? {
        return Verification(false, signed, false, false, false, false, NotStored, [SignatureOrSchemaInvalid], None);
      }
      var c := parsed.value;
      var timely := TimeValidNow(cfg, c, Seconds(now));
      var failures := When(!timely, EnvelopeTimeInvalid);
      failures := failures + When(c.issuer != cfg.issuer, IssuerMismatch);
      failures := failures + When(!(audience == c.audience && audience == cfg.audience), AudienceMismatch);
      failures := failures + When(c.tenantId != cfg.tenantId, TenantMismatch);
      var local, consumption := CheckStoredArtifact(compact, c);
      failures := failures + When(!local, LocalIssuanceNotProven);
      var bound := CheckBinding(compact, c);
      failures := failures + When(!bound, IntentBindingInvalid);
      v := Verification(timely && local && bound && failures == [], true, true, timely, local, bound, consumption,
                        failures, Some(c));
    }

    // The consumption columns and their event, or neither.
    method MarkConsumed(eid: Id, audience: string, actorId: string, key: string, at: int) returns (r: Result<Id>)
      requires Valid() && eid in envelopes && envelopes[eid].consumedAt.None?
      modifies this
      ensures Valid()
      ensures var id := old(envelopes)[eid].intentId;
        && id in old(Abs()).book && eid in old(Abs()).book[id].envelopes
        && id in intents && eid in envelopes && envelopes[eid].intentId == id
        && r == (if CanAppend(old(Abs()).book[id], at) then Ok(id) else Err(ClockRollbackDetected))
        && Abs() == if r.Err? then old(Abs())
                    else WithSlice(old(Abs()), id, ConsumedSlice(old(Abs()).book[id], eid, audience, actorId, key, at))
    {
      hide RowsOf, Consistent, ConsumePayload, BookOf, SliceOf;
      var saved := Db();
      var env := envelopes[eid];
      var id := env.intentId;
      EnvelopeInBook(cfg.tenantId, Db(), eid);
      var env' := ConsumedEnvelope(env, actorId, key, at);
      EnvelopeWritten(cfg.tenantId, Db(), eid, env');
      envelopes := envelopes[eid := env'];
      var appended := AppendAudit(id, EvidenceEnvelopeConsumed, actorId,
                                  ConsumePayload(eid, audience, actorId, key, env.stateVersion), at);
      if appended.Err? {
        Rollback(saved);
        return Err(appended.error);
      }
      InBook(Db(), id);
      r := Ok(id);
    }

    method ConsumeAuthorizationEnvelope(compact: CompactJws, audience: string, actorId: string, role: Role, key: string,
                                        verifyAt: int, expiryAt: int, consumeAt: int)
      returns (r: Result<Id>)
      requires Valid()
      modifies this
      ensures Valid()
      ensures Reply(Abs(), r)
        == Consume(cfg, old(Abs()), compact, audience, actorId, role, key, verifyAt, expiryAt, consumeAt)
    {
      hide RowsOf, Consistent, Verify, View, BookOf, SliceOf, ConsumedSlice, OwnerOf;
      if !IdentifierOk(actorId) { return Err(ValidationError); }
      if !role.Consumer? && !role.Admin? { return Err(Forbidden); }
      if !AudienceOk(audience) || !IdentifierOk(key) { return Err(ValidationError); }
      var v := VerifyAuthorizationEnvelope(compact, audience, verifyAt);
      var late := v.claims.Some? && v.signatureValid && v.claimsValid && v.locallyIssued && v.intentBindingValid
                  && !v.timeValid && v.failures == [EnvelopeTimeInvalid] && Seconds(expiryAt) >= v.claims.value.exp;
      if (!v.valid && !late) || v.claims.None? { return Err(EnvelopeInvalid); }
      var eid := v.claims.value.jti;
      EnvelopeOwner(cfg.tenantId, Db(), eid);
      if eid !in envelopes { return Err(NotFound); }
      var env := envelopes[eid];
      EnvelopeInBook(cfg.tenantId, Db(), eid);
      if env.consumedAt.Some? {
        if env.consumedBy == Some(actorId) && env.consumptionKey == Some(key) {
          r := ViewEnvelope(env.intentId, eid);
        } else {
          r := Err(EnvelopeReplayDetected);
        }
        return;
      }
      if late { return Err(EnvelopeExpired); }
      if consumeAt < env.issuedAt { return Err(EnvelopeInvalid); }
      if env.expiresAt <= consumeAt { return Err(EnvelopeExpired); }
      r := MarkConsumed(eid, audience, actorId, key, consumeAt);
      if r.Ok? {
        RowInBook(cfg.tenantId, Db(), env.intentId);
        r := ViewEnvelope(env.intentId, eid);
      }
    }

    // ----- startup -----

    // The first startup transaction.
    method InitializeSchema() returns (r: Result<()>)
      modifies this`registry
      ensures var spec := SigningKeys.InitializeSchema(cfg, old(registry), intents != map[]);
        && (r.Ok? <==> spec.Ok?) && (r.Err? ==> r.error == spec.error)
        && registry == if spec.Ok? then spec.value else old(registry)
    {
      if registry.root.Some? {
        if registry.root.value != RootMac(cfg) { return Err(ReceiptKeyMismatch); }
        var valid := CheckRegistry(cfg, registry);
        return if valid then Ok(()) else Err(SigningKeyIntegrityFailure);
      }
      if intents != map[] || registry.rows != map[] || registry.checkpoint.Some? { return Err(TrustRootMissing); }
      registry := Registry(map[], Some(RootMac(cfg)), Some(CheckpointMac(cfg, map[])));
      r := Ok(());
    }

    // The second: registerEnvelopeSigningKey.
    method RegisterEnvelopeSigningKey(key: SigningKey, at: int) returns (r: Result<()>)
      modifies this`registry
      ensures var spec := RegisterKey(cfg, old(registry), key, at);
        && (r.Ok? <==> spec.Ok?) && (r.Err? ==> r.error == spec.error)
        && registry == if spec.Ok? then spec.value else old(registry)
    {
      var valid := CheckRegistry(cfg, registry);
      if !valid { return Err(SigningKeyIntegrityFailure); }
      if key.keyId in registry.rows {
        return if registry.rows[key.keyId].jwk == PublicHalf(key) then Ok(()) else Err(SigningKeyConflict);
      }
      var rows := registry.rows[key.keyId := NewKeyRow(cfg, key, at)];
      registry := registry.(rows := rows, checkpoint := Some(CheckpointMac(cfg, rows)));
      r := Ok(());
    }

    // The process starts again on the same database; it may stop between the two transactions.
    method Boot(start: Start) returns (up: bool)
      requires Valid()
      modifies this`registry, this`signer
      ensures Valid() && Abs() == Restart(cfg, old(Abs()), start) && up == signer.Some?
    {
      hide Consistent, RowsOf;
      assert (Abs().book == map[]) == (intents == map[]) by { EmptyBook(Db()); }
      signer := None;
      up := false;
      var first := InitializeSchema();
      if first.Ok? && !start.stopsBetween {
        var second := RegisterEnvelopeSigningKey(start.signer, start.at);
        if second.Ok? {
          signer := Some(start.signer);
          up := true;
        }
      }
    }

    // ----- the public calls -----

    method GetIntent(id: Id, now: int) returns (r: Result<Id>)
      requires Valid()
      modifies this
      ensures Valid() && Reply(Abs(), r) == Calls.GetIntent(cfg, old(Abs()), id, now)
    {
      hide RowsOf, Consistent, Green, Sweep, SliceOf, BookOf;
      var swept := ExpireDueIntents(now);
      if swept.Err? { return Err(swept.error); }
      InBook(Db(), id);
      if id !in intents { return Err(NotFound); }
      RowInBook(cfg.tenantId, Db(), id);
      var report := VerifySlice(cfg, registry, SliceOf(Db(), id));
      r := if report.valid then Ok(id) else Err(IntegrityFailure);
    }

    method CreateIntent(p: Proposal, newId: Uuid, sweepAt: int, policyAt: int, createdAt: int, viewAt: int)
      returns (r: Result<Id>)
      requires Valid()
      modifies this
      ensures Valid() && Reply(Abs(), r) == CreateCall(cfg, old(Abs()), p, newId, sweepAt, policyAt, createdAt, viewAt)
    {
      hide Consistent, Green, Sweep, Create, Calls.GetIntent, BookOf;
      var swept := ExpireDueIntents(sweepAt);
      if swept.Err? { return Err(swept.error); }
      r := CreateTransaction(p, newId, policyAt, createdAt);
      if r.Ok? { r := GetIntent(r.value, viewAt); }
    }

    method ApproveIntent(id: Id, actorId: string, role: Role, decision: Decision, sweepAt: int, at: int, viewAt: int)
      returns (r: Result<Id>)
      requires Valid()
      modifies this
      ensures Valid()
      ensures Reply(Abs(), r) == ReviewCall(cfg, old(Abs()), id, actorId, role, decision, sweepAt, at, viewAt)
    {
      hide Consistent, Green, Sweep, Review, Calls.GetIntent, BookOf;
      var swept := ExpireDueIntents(sweepAt);
      if swept.Err? { return Err(swept.error); }
      r := ReviewTransaction(id, actorId, role, decision, at);
      if r.Ok? { r := GetIntent(r.value, viewAt); }
    }

    method CancelIntent(id: Id, actorId: string, role: Role, sweepAt: int, at: int, viewAt: int) returns (r: Result<Id>)
      requires Valid()
      modifies this
      ensures Valid() && Reply(Abs(), r) == CancelCall(cfg, old(Abs()), id, actorId, role, sweepAt, at, viewAt)
    {
      hide Consistent, Green, Sweep, Cancel, Calls.GetIntent, BookOf;
      var swept := ExpireDueIntents(sweepAt);
      if swept.Err? { return Err(swept.error); }
      r := CancelTransaction(id, actorId, role, at);
      if r.Ok? { r := GetIntent(r.value, viewAt); }
    }

    method RecordMockObservation(id: Id, oid: Uuid, status: ObservationStatus, providerReference: Option<string>,
                                 actorId: string, at: int, viewAt: int) returns (r: Result<Id>)
      requires Valid()
      modifies this
      ensures Valid()
      ensures Reply(Abs(), r) == ObserveCall(cfg, old(Abs()), id, oid, status, providerReference, actorId, at, viewAt)
    {
      hide Consistent, Green, Sweep, Observe, Calls.GetIntent, BookOf;
      r := ObserveTransaction(id, oid, status, providerReference, actorId, at);
      if r.Ok? { r := GetIntent(r.value, viewAt); }
    }
  }
}
