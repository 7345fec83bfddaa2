// Everything on file was asked for, by someone entitled to ask: over any run each proposal,
// approval, cancellation, observation, envelope and consumption goes back to one operation of the
// run, made in a role that may make it, with the very values that are stored.
module Authority {
  import opened Basics
  import opened Evidence
  import opened Integrity
  import opened Exposure
  import opened Operations
  import opened Store

  // ----- what an operation accounts for -----

  predicate Proposes(op: Op, row: Intent) {
    && op.CreateOp? && op.newId == row.id && op.createdAt == row.createdAt
    && op.p.agentId == row.agentId && op.p.idempotencyKey == row.idempotencyKey
    && op.p.amountMinor == row.amountMinor && op.p.payeeReference == row.payeeReference
    && op.p.purpose == row.purpose && op.p.onBehalfOf == row.onBehalfOf
  }

  // A review, by an approver or an admin who is not the requesting agent.
  predicate Reviews(op: Op, row: Intent, a: Approval) {
    && op.ReviewOp? && op.id == row.id && op.actorId == a.actorId && op.role == a.actorRole
    && op.decision == a.decision && op.at == a.createdAt
    && (op.role == Approver || op.role == Admin) && op.actorId != row.agentId
  }

  // A cancellation, by the requesting agent or an admin.
  predicate Cancels(op: Op, row: Intent) {
    op.CancelOp? && op.id == row.id && (op.role == Admin || (op.role == Agent && op.actorId == row.agentId))
  }

  predicate Observes(op: Op, row: Intent, o: Observation) {
    && op.ObserveOp? && op.id == row.id && op.oid == o.id && op.observation == o.status
    && op.providerReference == o.providerReference && op.at == o.observedAt
  }

  // A request for an envelope, by an approver or an admin.
  predicate Issues(op: Op, row: Intent, eid: Id, env: Envelope) {
    && op.IssueOp? && op.id == row.id && op.eid == eid && op.key == env.issuanceKey && op.at == env.issuedAt
    && op.audience == env.audience && (op.role == Approver || op.role == Admin)
  }

  // A presentation of these very bytes, by a consumer or an admin.
  predicate Consumes(op: Op, env: Envelope) {
    && op.ConsumeOp? && op.compact == env.compact && env.consumedBy == Some(op.actorId)
    && env.consumptionKey == Some(op.key) && env.consumedAt == Some(op.consumeAt)
    && (op.role == Consumer || op.role == Admin)
  }

  // ----- what a run accounts for -----

  ghost predicate ProposedIn(ops: seq<Op>, row: Intent) { exists i :: 0 <= i < |ops| && Proposes(ops[i], row) }

  ghost predicate ReviewedIn(ops: seq<Op>, row: Intent, a: Approval) {
    exists i :: 0 <= i < |ops| && Reviews(ops[i], row, a)
  }

  ghost predicate CancelledIn(ops: seq<Op>, row: Intent) { exists i :: 0 <= i < |ops| && Cancels(ops[i], row) }

  ghost predicate ObservedIn(ops: seq<Op>, row: Intent, o: Observation) {
    exists i :: 0 <= i < |ops| && Observes(ops[i], row, o)
  }

  ghost predicate IssuedIn(ops: seq<Op>, row: Intent, eid: Id, env: Envelope) {
    exists i :: 0 <= i < |ops| && Issues(ops[i], row, eid, env)
  }

  ghost predicate ConsumedIn(ops: seq<Op>, env: Envelope) { exists i :: 0 <= i < |ops| && Consumes(ops[i], env) }

  ghost predicate Accounted(ops: seq<Op>, id: Id, s: Slice) {
    && s.intent.id == id && ProposedIn(ops, s.intent)
    && (forall i :: 0 <= i < |s.approvals| ==> ReviewedIn(ops, s.intent, s.approvals[i]))
    && (s.intent.status == Cancelled ==> CancelledIn(ops, s.intent))
    && (forall i :: 0 <= i < |s.observations| ==> ObservedIn(ops, s.intent, s.observations[i]))
    && (forall e :: e in s.envelopes ==>
          && IssuedIn(ops, s.intent, e, s.envelopes[e])
          && (s.envelopes[e].consumedAt.Some? ==> ConsumedIn(ops, s.envelopes[e])))
  }

  ghost predicate AllAccounted(ops: seq<Op>, book: Book) { forall id :: id in book ==> Accounted(ops, id, book[id]) }

  // ----- a longer run accounts for as much -----

  lemma {:induction false} StillAccounted(ops: seq<Op>, op: Op, id: Id, s: Slice)
    requires Accounted(ops, id, s)
    ensures Accounted(ops + [op], id, s)
  {
    hide Proposes, Reviews, Cancels, Observes, Issues, Consumes;
    assert forall i :: 0 <= i < |ops| ==> (ops + [op])[i] == ops[i];
  }

  lemma {:induction false} AllStillAccounted(ops: seq<Op>, op: Op, book: Book)
    requires AllAccounted(ops, book)
    ensures AllAccounted(ops + [op], book)
  {
    hide Accounted;
    forall id | id in book ensures Accounted(ops + [op], id, book[id]) { StillAccounted(ops, op, id, book[id]); }
  }

  lemma {:induction false} UpdateAccounted(ops: seq<Op>, book: Book, id: Id, s: Slice)
    requires AllAccounted(ops, book) && Accounted(ops, id, s)
    ensures AllAccounted(ops, book[id := s])
  {
    hide Accounted;
  }

  lemma {:induction false} AccountedIn(ops: seq<Op>, book: Book, id: Id)
    requires AllAccounted(ops, book) && id in book
    ensures Accounted(ops, id, book[id])
  {
    hide Accounted;
  }

  // ----- each operation accounts for what it adds -----

  // A row that only moved on is accounted for as it was.
  lemma {:induction false} RowMoved(ops: seq<Op>, row: Intent, row': Intent)
    requires row' == row.(status := row'.status, stateVersion := row'.stateVersion)
    ensures ProposedIn(ops, row) ==> ProposedIn(ops, row')
    ensures forall a :: ReviewedIn(ops, row, a) ==> ReviewedIn(ops, row', a)
    ensures forall o :: ObservedIn(ops, row, o) ==> ObservedIn(ops, row', o)
    ensures forall e, env :: IssuedIn(ops, row, e, env) ==> IssuedIn(ops, row', e, env)
  {
    assert forall op :: Proposes(op, row) ==> Proposes(op, row');
    assert forall op, a :: Reviews(op, row, a) ==> Reviews(op, row', a);
    assert forall op, o :: Observes(op, row, o) ==> Observes(op, row', o);
    assert forall op, e, env :: Issues(op, row, e, env) ==> Issues(op, row', e, env);
    hide Proposes, Reviews, Observes, Issues;
  }

  lemma {:induction false} ExpiryAccounted(ops: seq<Op>, id: Id, s: Slice, at: int)
    requires Accounted(ops, id, s)
    ensures Accounted(ops, id, ExpiredSlice(s, at))
  {
    hide ProposedIn, ReviewedIn, ObservedIn, IssuedIn, ConsumedIn, CancelledIn;
    RowMoved(ops, s.intent, ExpiredSlice(s, at).intent);
  }

  lemma {:induction false} CancelAccounted(ops: seq<Op>, id: Id, s: Slice, op: Op)
    requires Accounted(ops, id, s) && op in ops && Cancels(op, s.intent)
    ensures Accounted(ops, id, CancelledSlice(s, op.actorId, op.at))
  {
    var s' := CancelledSlice(s, op.actorId, op.at);
    assert CancelledIn(ops, s'.intent) by {
      var i :| 0 <= i < |ops| && ops[i] == op;
      assert Cancels(ops[i], s'.intent);
    }
    hide ProposedIn, ReviewedIn, ObservedIn, IssuedIn, ConsumedIn, CancelledIn;
    RowMoved(ops, s.intent, s'.intent);
  }

  lemma {:induction false} ReviewAccounted(cfg: Config, ops: seq<Op>, id: Id, s: Slice, op: Op)
    requires Accounted(ops, id, s) && op in ops && op.ReviewOp? && op.id == id && op.actorId != s.intent.agentId
    requires op.role == Approver || op.role == Admin
    ensures Accounted(ops, id, ReviewedSlice(cfg, s, op.actorId, op.role, op.decision, op.at))
  {
    var s' := ReviewedSlice(cfg, s, op.actorId, op.role, op.decision, op.at);
    var a := Last(s'.approvals);
    assert s'.approvals == s.approvals + [a];
    assert ReviewedIn(ops, s'.intent, a) by {
      var i :| 0 <= i < |ops| && ops[i] == op;
      assert Reviews(ops[i], s'.intent, a);
    }
    hide ProposedIn, ReviewedIn, ObservedIn, IssuedIn, ConsumedIn, CancelledIn, NewApproval, ReviewPayload, Approves;
    RowMoved(ops, s.intent, s'.intent);
  }

  lemma {:induction false} ObserveAccounted(ops: seq<Op>, id: Id, s: Slice, op: Op)
    requires Accounted(ops, id, s) && op in ops && op.ObserveOp? && op.id == id
    ensures var o := Observation(op.oid, id, op.observation, op.providerReference, op.at);
      Accounted(ops, id, ObservedSlice(s, o, op.actorId))
  {
    var o := Observation(op.oid, id, op.observation, op.providerReference, op.at);
    assert ObservedIn(ops, s.intent, o) by {
      var i :| 0 <= i < |ops| && ops[i] == op;
      assert Observes(ops[i], s.intent, o);
    }
    hide ProposedIn, ReviewedIn, ObservedIn, IssuedIn, ConsumedIn, CancelledIn, ObservationPayload;
  }

  lemma {:induction false} IssueAccounted(cfg: Config, ops: seq<Op>, id: Id, s: Slice, op: Op, signer: SigningKey)
    requires Accounted(ops, id, s) && op in ops && op.IssueOp? && op.id == id && op.audience == cfg.audience
    requires op.role == Approver || op.role == Admin
    requires s.intent.policyReasons.Some? && EnvelopeApprovals(s) != []
    ensures var env := NewEnvelope(cfg, s, IssuedClaims(cfg, s, op.eid, op.nonce, op.ttl, op.at), op.key, signer);
      Accounted(ops, id, IssuedSlice(s, op.eid, env, op.actorId))
  {
    hide EnvelopeApprovals, IssuePayload, ProposedIn, ReviewedIn, ObservedIn, ConsumedIn, CancelledIn;
    var env := NewEnvelope(cfg, s, IssuedClaims(cfg, s, op.eid, op.nonce, op.ttl, op.at), op.key, signer);
    assert IssuedIn(ops, s.intent, op.eid, env) by {
      var i :| 0 <= i < |ops| && ops[i] == op;
      assert Issues(ops[i], s.intent, op.eid, env);
    }
    hide IssuedIn, NewEnvelope, IssuedClaims;
    assert env.consumedAt.None? by { Unconsumed(cfg, s, op, signer); }
  }

  lemma {:induction false} Unconsumed(cfg: Config, s: Slice, op: Op, signer: SigningKey)
    requires op.IssueOp? && s.intent.policyReasons.Some? && EnvelopeApprovals(s) != []
    ensures var c := IssuedClaims(cfg, s, op.eid, op.nonce, op.ttl, op.at);
      NewEnvelope(cfg, s, c, op.key, signer).consumedAt.None?
  {
    hide EnvelopeApprovals, IssuedClaims;
  }

  lemma {:induction false} ConsumeAccounted(ops: seq<Op>, id: Id, s: Slice, eid: Id, op: Op)
    requires Accounted(ops, id, s) && op in ops && op.ConsumeOp? && eid in s.envelopes
    requires op.compact == s.envelopes[eid].compact && (op.role == Consumer || op.role == Admin)
    ensures Accounted(ops, id, ConsumedSlice(s, eid, op.audience, op.actorId, op.key, op.consumeAt))
  {
    hide ConsumePayload, ProposedIn, ReviewedIn, ObservedIn, CancelledIn;
    var env, env' := s.envelopes[eid], ConsumedEnvelope(s.envelopes[eid], op.actorId, op.key, op.consumeAt);
    assert ConsumedIn(ops, env') by {
      var i :| 0 <= i < |ops| && ops[i] == op;
      assert Consumes(ops[i], env');
    }
    assert IssuedIn(ops, s.intent, eid, env');
    hide IssuedIn, ConsumedIn;
  }

  lemma {:induction false} CreateAccounted(cfg: Config, ops: seq<Op>, op: Op, d: PolicyDecision)
    requires op in ops && op.CreateOp?
    ensures Accounted(ops, op.newId, NewSlice(cfg, op.newId, op.p, d, op.createdAt))
  {
    hide InitialPayload, WrittenPayload;
    var s := NewSlice(cfg, op.newId, op.p, d, op.createdAt);
    var i :| 0 <= i < |ops| && ops[i] == op;
    assert Proposes(ops[i], s.intent);
  }

  // ----- each step -----

  lemma {:induction false} SweepStep(w: World, ops: seq<Op>, now: int)
    requires AllAccounted(ops, w.book)
    ensures AllAccounted(ops, Sweep(w, now).world.book)
  {
    hide Accounted, ExpiredSlice, SweepBlocked;
    forall id | id in w.book ensures Accounted(ops, id, Sweep(w, now).world.book[id]) {
      ExpiryAccounted(ops, id, w.book[id], now);
    }
  }

  lemma {:induction false} DecisionStep(cfg: Config, w: World, ops: seq<Op>, op: Op)
    requires AllAccounted(ops, w.book) && op in ops && (op.ReviewOp? || op.CancelOp?)
    ensures AllAccounted(ops, Apply(cfg, w, op).book)
  {
    hide Accounted, AllAccounted, Green, CanAppend, HasReviewed, IdentifierOk, ExpiredSlice, CancelledSlice,
         ReviewedSlice;
    if w.signer.Some? && Apply(cfg, w, op) != w {
      AccountedIn(ops, w.book, op.id);
      var s := w.book[op.id];
      SameId(ops, op.id, s);
      if s.intent.expiresAt <= op.at {
        ExpiryAccounted(ops, op.id, s, op.at);
        UpdateAccounted(ops, w.book, op.id, ExpiredSlice(s, op.at));
      } else if op.ReviewOp? {
        ReviewAccounted(cfg, ops, op.id, s, op);
        UpdateAccounted(ops, w.book, op.id, ReviewedSlice(cfg, s, op.actorId, op.role, op.decision, op.at));
      } else {
        CancelAccounted(ops, op.id, s, op);
        UpdateAccounted(ops, w.book, op.id, CancelledSlice(s, op.actorId, op.at));
      }
    }
  }

  lemma {:induction false} SameId(ops: seq<Op>, id: Id, s: Slice)
    requires Accounted(ops, id, s)
    ensures s.intent.id == id
  {
  }

  lemma {:induction false} CreateStep(cfg: Config, w: World, ops: seq<Op>, op: Op)
    requires AllAccounted(ops, w.book) && op in ops && op.CreateOp?
    ensures AllAccounted(ops, Apply(cfg, w, op).book)
  {
    hide Accounted, AllAccounted, DailyExposure, DecidePolicy, NewSlice, FindByKey, ProposalOk;
    if w.signer.Some? && Apply(cfg, w, op) != w {
      var d := DecidePolicy(cfg, DailyExposure(w.book, cfg.tenantId, op.p.agentId, op.policyAt), op.p);
      CreateAccounted(cfg, ops, op, d);
      UpdateAccounted(ops, w.book, op.newId, NewSlice(cfg, op.newId, op.p, d, op.createdAt));
    }
  }

  // What a verdict that lets a consumption through says of the stored row.
  lemma {:induction false} PresentedBytes(cfg: Config, w: World, compact: CompactJws, audience: string, now: int,
                                          expiryAt: int)
    requires var v := Verify(cfg, w, compact, audience, now); v.valid || ExpiredButOtherwiseValid(v, expiryAt)
    ensures Verify(cfg, w, compact, audience, now).claims.Some?
    ensures var eid := Verify(cfg, w, compact, audience, now).claims.value.jti;
      OwnerOf(w.book, eid).Some? && w.book[OwnerOf(w.book, eid).value].envelopes[eid].compact == compact
  {
    hide BindingValid, StrictClaims, TrustedJwk, SignatureVerifies, TimeValidNow;
  }

  lemma {:induction false} EvidenceStep(cfg: Config, w: World, ops: seq<Op>, op: Op)
    requires AllAccounted(ops, w.book) && op in ops && (op.ObserveOp? || op.IssueOp? || op.ConsumeOp?)
    ensures AllAccounted(ops, Apply(cfg, w, op).book)
  {
    hide Accounted, AllAccounted, Green, CanAppend, Verify, View, Reissue, FindForState, StrictClaims, IssuedClaims,
         NewEnvelope, IssuedSlice, ObservedSlice, ConsumedSlice, EnvelopeApprovals, EnvelopeKeysFree, IdentifierOk,
         ObservationOk, AudienceOk, Frozen;
    if w.signer.Some? && Apply(cfg, w, op) != w {
      if op.ConsumeOp? {
        PresentedBytes(cfg, w, op.compact, op.audience, op.verifyAt, op.expiryAt);
        var eid := Verify(cfg, w, op.compact, op.audience, op.verifyAt).claims.value.jti;
        var id := OwnerOf(w.book, eid).value;
        AccountedIn(ops, w.book, id);
        ConsumeAccounted(ops, id, w.book[id], eid, op);
        UpdateAccounted(ops, w.book, id,
                        ConsumedSlice(w.book[id], eid, op.audience, op.actorId, op.key, op.consumeAt));
      } else {
        var s := w.book[op.id];
        AccountedIn(ops, w.book, op.id);
        if op.ObserveOp? {
          ObserveAccounted(ops, op.id, s, op);
          var o := Observation(op.oid, op.id, op.observation, op.providerReference, op.at);
          UpdateAccounted(ops, w.book, op.id, ObservedSlice(s, o, op.actorId));
        } else {
          IssueAccounted(cfg, ops, op.id, s, op, w.signer.value);
          var c := IssuedClaims(cfg, s, op.eid, op.nonce, op.ttl, op.at);
          var env := NewEnvelope(cfg, s, c, op.key, w.signer.value);
          UpdateAccounted(ops, w.book, op.id, IssuedSlice(s, op.eid, env, op.actorId));
        }
      }
    }
  }

  lemma {:induction false} RestartStep(cfg: Config, w: World, op: Op)
    requires op.RestartOp?
    ensures Apply(cfg, w, op).book == w.book
  {
  }

  lemma {:induction false} StepAccounted(cfg: Config, w: World, ops: seq<Op>, op: Op)
    requires AllAccounted(ops, w.book) && op in ops
    ensures AllAccounted(ops, Apply(cfg, w, op).book)
  {
    hide AllAccounted, Sweep, Create, Review, Cancel, Observe, Issue, Consume;
    match op
    case SweepOp(now) => SweepStep(w, ops, now);
    case CreateOp(_, _, _, _) => CreateStep(cfg, w, ops, op);
    case ReviewOp(_, _, _, _, _) => DecisionStep(cfg, w, ops, op);
    case CancelOp(_, _, _, _) => DecisionStep(cfg, w, ops, op);
    case RestartOp(_) => RestartStep(cfg, w, op);
    case _ => EvidenceStep(cfg, w, ops, op);
  }

  // Every run accounts for everything in the store it leads to.
  lemma {:induction false} EverythingWasAskedFor(cfg: Config, ops: seq<Op>)
    ensures AllAccounted(ops, Run(cfg, EMPTY_WORLD, ops).book)
  {
    hide Apply, Accounted;
    if ops != [] {
      hide AllAccounted;
      var init, op := ops[..|ops| - 1], Last(ops);
      EverythingWasAskedFor(cfg, init);
      var before := Run(cfg, EMPTY_WORLD, init);
      AllStillAccounted(init, op, before.book);
      assert init + [op] == ops;
      StepAccounted(cfg, before, ops, op);
    }
  }
}
