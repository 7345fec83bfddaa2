// Every envelope the ledger ever stores is within the codec's limit: the limits checked when
// proposals and decisions arrive hold of every stored row, so the document signed is light.
module EnvelopeFits {
  import opened Ordering
  import opened Basics
  import opened Evidence
  import opened Integrity
  import opened Exposure
  import opened Operations
  import opened Invariant
  import opened EnvelopeLife
  import opened SigningKeys
  import opened Store
  import opened Runs
  import D = EnvelopeDocument
  import J = JwsCodec
  import Z = JwsSize

  // ----- limits of what is stored -----

  predicate RowWithin(row: Intent) {
    && |row.id| == 36 && IdentifierOk(row.idempotencyKey) && IdentifierOk(row.agentId)
    && (row.onBehalfOf.Some? ==> IdentifierOk(row.onBehalfOf.value))
    && 1 <= row.amountMinor <= MAX_SAFE_INTEGER && |row.payeeReference| <= 64 && |row.purpose| <= 500
    && |row.rulesVersion| <= 128
  }

  predicate IssuedWithin(eid: Id, env: Envelope) {
    && |eid| == 36
    && env.compact.Jws? && env.compact.document.ClaimsDocument? && |env.compact.document.claims.nonce| == 43
  }

  ghost predicate SliceWithin(s: Slice) {
    && RowWithin(s.intent)
    && (forall i :: 0 <= i < |s.approvals| ==> IdentifierOk(s.approvals[i].actorId))
    && (forall e :: e in s.envelopes ==> IssuedWithin(e, s.envelopes[e]))
  }

  ghost predicate BookWithin(book: Book) { forall id :: id in book ==> SliceWithin(book[id]) }

  // ----- every operation keeps them -----

  lemma {:induction false} NewWithin(cfg: Config, id: Uuid, p: Proposal, d: PolicyDecision, createdAt: int)
    requires ProposalOk(cfg, p) && |d.rulesVersion| <= 128
    ensures SliceWithin(NewSlice(cfg, id, p, d, createdAt))
  {
    hide InitialPayload;
  }

  lemma {:induction false} MovedWithin(s: Slice, status: Status, eventType: EventType, actorId: string,
                                       payload: Payload, at: int)
    requires SliceWithin(s)
    ensures SliceWithin(Append(Moved(s, status), eventType, actorId, payload, at))
  {
    hide IssuedWithin, IdentifierOk;
  }

  lemma {:induction false} ReviewedWithin(cfg: Config, s: Slice, actorId: string, role: Role, decision: Decision,
                                          at: int)
    requires SliceWithin(s) && IdentifierOk(actorId)
    ensures SliceWithin(ReviewedSlice(cfg, s, actorId, role, decision, at))
  {
    hide IssuedWithin, IdentifierOk, ReviewPayload, OutcomeOf;
  }

  lemma {:induction false} ObservedWithin(s: Slice, o: Observation, actorId: string)
    requires SliceWithin(s)
    ensures SliceWithin(ObservedSlice(s, o, actorId))
  {
    hide IssuedWithin, IdentifierOk, ObservationPayload;
  }

  lemma {:induction false} IssuedKeepsWithin(cfg: Config, s: Slice, eid: Uuid, nonce: Nonce, ttl: int, at: int,
                                             key: string, signer: SigningKey, actorId: string)
    requires SliceWithin(s) && s.intent.policyReasons.Some? && EnvelopeApprovals(s) != []
    ensures var env := NewEnvelope(cfg, s, IssuedClaims(cfg, s, eid, nonce, ttl, at), key, signer);
      SliceWithin(IssuedSlice(s, eid, env, actorId))
  {
    hide IdentifierOk, EnvelopeApprovals, IssuePayload;
  }

  lemma {:induction false} ConsumedWithin(s: Slice, eid: Id, audience: string, actorId: string, key: string, at: int)
    requires SliceWithin(s) && eid in s.envelopes
    ensures SliceWithin(ConsumedSlice(s, eid, audience, actorId, key, at))
  {
    hide IdentifierOk, ConsumePayload;
  }

  lemma {:induction false} UpdateWithin(book: Book, id: Id, s: Slice)
    requires BookWithin(book) && SliceWithin(s)
    ensures BookWithin(book[id := s])
  {
    hide SliceWithin;
  }

  lemma {:induction false} SweepWithin(w: World, now: int)
    requires BookWithin(w.book)
    ensures BookWithin(Sweep(w, now).world.book)
  {
    hide SliceWithin, Due, SweepBlocked, Append, Moved;
    forall id | id in w.book ensures SliceWithin(ExpiredSlice(w.book[id], now)) {
      MovedWithin(w.book[id], Expired, ProposalExpired, "parimit-clock", StatusPayload(Expired), now);
    }
  }

  lemma {:induction false} CreateWithin(cfg: Config, w: World, p: Proposal, id: Uuid, policyAt: int, createdAt: int)
    requires ConfigOk(cfg) && BookWithin(w.book)
    ensures BookWithin(Create(cfg, w, p, id, policyAt, createdAt).world.book)
  {
    hide SliceWithin, BookWithin, ProposalOk, NewSlice, DailyExposure, FindByKey;
    var w' := Create(cfg, w, p, id, policyAt, createdAt).world;
    if w' != w {
      var d := DecidePolicy(cfg, DailyExposure(w.book, cfg.tenantId, p.agentId, policyAt), p);
      NewWithin(cfg, id, p, d, createdAt);
      UpdateWithin(w.book, id, NewSlice(cfg, id, p, d, createdAt));
    }
  }

  lemma {:induction false} DecisionWithin(cfg: Config, w: World, op: Op)
    requires BookWithin(w.book) && (op.ReviewOp? || op.CancelOp?)
    ensures BookWithin(Apply(cfg, w, op).book)
  {
    hide SliceWithin, BookWithin, Green, CanAppend, IdentifierOk, HasReviewed, ReviewedSlice, Append, Moved;
    if w.signer.Some? && Apply(cfg, w, op) != w {
      var s := w.book[op.id];
      SliceIn(w.book, op.id);
      if s.intent.expiresAt <= op.at {
        MovedWithin(s, Expired, ProposalExpired, "parimit-clock", StatusPayload(Expired), op.at);
        UpdateWithin(w.book, op.id, ExpiredSlice(s, op.at));
      } else if op.ReviewOp? {
        ReviewedWithin(cfg, s, op.actorId, op.role, op.decision, op.at);
        UpdateWithin(w.book, op.id, ReviewedSlice(cfg, s, op.actorId, op.role, op.decision, op.at));
      } else {
        MovedWithin(s, Cancelled, ProposalCancelled, op.actorId, StatusPayload(Cancelled), op.at);
        UpdateWithin(w.book, op.id, CancelledSlice(s, op.actorId, op.at));
      }
    }
  }

  lemma {:induction false} SliceIn(book: Book, id: Id)
    requires BookWithin(book) && id in book
    ensures SliceWithin(book[id])
  {
  }

  lemma {:induction false} EvidenceWithin(cfg: Config, w: World, op: Op)
    requires BookWithin(w.book) && (op.ObserveOp? || op.IssueOp? || op.ConsumeOp?)
    ensures BookWithin(Apply(cfg, w, op).book)
  {
    hide SliceWithin, BookWithin, Green, Verify, StrictClaims, View, CanAppend, ObservedSlice, IssuedSlice, NewEnvelope,
         IssuedClaims, EnvelopeApprovals, ConsumedSlice, FindForState, Reissue, EnvelopeKeysFree;
    if w.signer.Some? && Apply(cfg, w, op) != w {
      match op
      case ObserveOp(id, oid, status, ref, actorId, at) =>
        var o := Observation(oid, id, status, ref, at);
        SliceIn(w.book, id);
        ObservedWithin(w.book[id], o, actorId);
        UpdateWithin(w.book, id, ObservedSlice(w.book[id], o, actorId));
      case IssueOp(id, audience, key, ttl, actorId, role, at, eid, nonce) =>
        var c := IssuedClaims(cfg, w.book[id], eid, nonce, ttl, at);
        var env := NewEnvelope(cfg, w.book[id], c, key, w.signer.value);
        SliceIn(w.book, id);
        IssuedKeepsWithin(cfg, w.book[id], eid, nonce, ttl, at, key, w.signer.value, actorId);
        UpdateWithin(w.book, id, IssuedSlice(w.book[id], eid, env, actorId));
      case ConsumeOp(compact, audience, actorId, role, key, verifyAt, expiryAt, consumeAt) =>
        var eid := Verify(cfg, w, compact, audience, verifyAt).claims.value.jti;
        var id := OwnerOf(w.book, eid).value;
        SliceIn(w.book, id);
        ConsumedWithin(w.book[id], eid, audience, actorId, key, consumeAt);
        UpdateWithin(w.book, id, ConsumedSlice(w.book[id], eid, audience, actorId, key, consumeAt));
    }
  }

  lemma {:induction false} ApplyWithin(cfg: Config, w: World, op: Op)
    requires ConfigOk(cfg) && BookWithin(w.book)
    ensures BookWithin(Apply(cfg, w, op).book)
  {
    hide BookWithin, Sweep, Create, Review, Cancel, Observe, Issue, Consume;
    match op
    case SweepOp(now) => SweepWithin(w, now);
    case CreateOp(p, id, policyAt, createdAt) => CreateWithin(cfg, w, p, id, policyAt, createdAt);
    case ReviewOp(_, _, _, _, _) => DecisionWithin(cfg, w, op);
    case CancelOp(_, _, _, _) => DecisionWithin(cfg, w, op);
    case RestartOp(start) => RestartWithin(cfg, w, start);
    case _ => EvidenceWithin(cfg, w, op);
  }

  lemma {:induction false} RestartWithin(cfg: Config, w: World, start: Start)
    ensures Restart(cfg, w, start).book == w.book
  {
  }

  lemma {:induction false} RunWithin(cfg: Config, ops: seq<Op>)
    requires ConfigOk(cfg)
    ensures BookWithin(Run(cfg, EMPTY_WORLD, ops).book)
  {
    hide Apply, SliceWithin, ConfigOk;
    if ops != [] {
      hide BookWithin;
      RunWithin(cfg, ops[..|ops| - 1]);
      ApplyWithin(cfg, Run(cfg, EMPTY_WORLD, ops[..|ops| - 1]), Last(ops));
    }
  }

  lemma {:induction false} ReachableWithin(cfg: Config, w: World)
    requires Reachable(cfg, w)
    ensures BookWithin(w.book)
  {
    hide Run, BookWithin;
    var ops :| w == Run(cfg, EMPTY_WORLD, ops);
    RunWithin(cfg, ops);
  }

  // ----- so every stored document fits -----

  lemma {:induction false} NoDenial(reasons: seq<Reason>)
    requires Denying(reasons) == []
    ensures Approving(reasons) == reasons
  {
    if reasons != [] { NoDenial(reasons[1..]); }
  }

  lemma {:induction false} AllowedReasons(row: Intent)
    requires row.policyReasons.Some? && row.policyReasons.value.Listed? && row.policyAllowed
    requires ReasonsConsistent(row, row.policyReasons.value.reasons)
    ensures row.policyReasons.value.reasons == [ApprovalReason(row.requiredApprovals)]
  {
    NoDenial(row.policyReasons.value.reasons);
  }

  lemma {:induction false} SnapshotFits(cfg: Config, row: Intent)
    requires ConfigOk(cfg) && RowWithin(row) && RowConsistent(cfg, row) && row.policyAllowed
    ensures D.SnapshotWithin(PayloadFromRow(cfg, row))
  {
    hide Approving, Denying;
    AllowedReasons(row);
  }

  lemma {:induction false} ListedWithin(s: Slice)
    requires SliceWithin(s) && Phase(s) && s.intent.status == AuthorizedNoDispatch
    requires s.intent.requiredApprovals == 1 || s.intent.requiredApprovals == 2
    requires |s.approvals| == 2 ==> s.approvals[0].actorId != s.approvals[1].actorId
    ensures forall i :: 0 <= i < |EnvelopeApprovals(s)| ==> IdentifierOk(EnvelopeApprovals(s)[i].subject)
  {
    EnvelopeApprovalsFacts(s);
    hide EnvelopeApprovals, IdentifierOk, RowWithin, IssuedWithin;
    forall i | 0 <= i < |EnvelopeApprovals(s)| ensures IdentifierOk(EnvelopeApprovals(s)[i].subject) {
      assert ListsApproval(s, EnvelopeApprovals(s)[i]);
    }
  }

  lemma {:induction false} RowFacts(cfg: Config, reg: Registry, id: Id, s: Slice)
    requires SliceInv(cfg, reg, id, s)
    ensures RowConsistent(cfg, s.intent) && Phase(s) && s.intent.id == id
    ensures |s.approvals| == 2 ==> s.approvals[0].actorId != s.approvals[1].actorId
    ensures s.intent.status == AuthorizedNoDispatch ==> s.intent.policyAllowed
  {
    if |s.approvals| == 2 { DistinctPair(s.intent, s.approvals); }
  }

  predicate Signs(env: Envelope, c: Claims) { env.compact.Jws? && env.compact.document == ClaimsDocument(c) }

  lemma {:induction false} ClaimsFit(cfg: Config, reg: Registry, id: Id, s: Slice, eid: Id, c: Claims)
    requires ConfigOk(cfg) && SliceInv(cfg, reg, id, s) && SliceWithin(s) && eid in s.envelopes
    requires Signs(s.envelopes[eid], c) && D.Safe(c.iat) && D.Safe(c.exp) && D.Safe(c.eventCount)
    ensures D.Within(c)
  {
    hide SliceInv, RowConsistent, Phase, EnvelopeValid, EnvelopeApprovals, VerifiedClaims, ExactArtifact,
         D.SnapshotWithin;
    EnvelopeFacts(cfg, reg, id, s, eid);
    RowFacts(cfg, reg, id, s);
    RowStatus(cfg, s.intent);
    SnapshotFits(cfg, s.intent);
    ListedWithin(s);
    hide SortOn, ApprovalKey, SubjectsDistinct;
  }

  lemma {:induction false} RowStatus(cfg: Config, row: Intent)
    requires RowConsistent(cfg, row)
    ensures row.requiredApprovals == 1 || row.requiredApprovals == 2
  {
  }

  // An envelope stored in any reachable world: signed by the codec under any key, its claims
  // give a string within the limit, and that string verifies to exactly those claims. The
  // numbers are safe integers, or strictEnvelopeClaims would have refused to issue it.
  lemma {:induction false} StoredEnvelopeFits(cfg: Config, w: World, id: Id, eid: Id, c: Claims, sp: D.Spelling,
                                              ed: J.Scheme, signer: J.Signer)
    requires Reachable(cfg, w) && id in w.book && eid in w.book[id].envelopes && Signs(w.book[id].envelopes[eid], c)
    requires D.Safe(c.iat) && D.Safe(c.exp) && D.Safe(c.eventCount)
    requires D.Spells(sp) && J.Sound(ed) && 1 <= |signer.kid| <= 128
    ensures Z.Survives(ed, D.Document(sp, c), signer)
  {
    hide Reachable, SliceInv, BookWithin, SliceWithin, Signs, D.Spells, J.Sound, D.Document, Z.Survives, D.Within;
    ReachableInv(cfg, w);
    ReachableWithin(cfg, w);
    SliceIn(w.book, id);
    ClaimsFit(cfg, w.registry, id, w.book[id], eid, c);
    D.ClaimsVerify(sp, c, ed, signer);
  }
}
