// How stored evidence may change over a run: append-only logs, a lifecycle that is left
// once, envelopes that are consumed once, an IN_DOUBT stream that stays frozen.
module Evolution {
  import opened Evidence
  import opened Integrity
  import opened Operations
  import opened Invariant
  import opened EnvelopeLife
  import opened SigningKeys
  import opened Store
  import opened Runs

  // A stored envelope keeps every column; its consumption is written at most once.
  ghost predicate EnvelopeEvolves(env: Envelope, env': Envelope) {
    && env' == env.(consumedAt := env'.consumedAt, consumedBy := env'.consumedBy, consumptionKey := env'.consumptionKey)
    && (env.consumedAt.Some? ==> env' == env)
  }

  ghost predicate EnvelopesEvolve(before: map<Id, Envelope>, after: map<Id, Envelope>) {
    forall e :: e in before ==> e in after && EnvelopeEvolves(before[e], after[e])
  }

  // The decision is final: once AWAITING_APPROVAL is left, status, version and approvals never change.
  ghost predicate DecisionFinal(s: Slice, s': Slice) {
    s.intent.status != AwaitingApproval ==> s'.intent == s.intent && s'.approvals == s.approvals
  }

  ghost predicate SliceEvolves(s: Slice, s': Slice) {
    && s'.intent == s.intent.(status := s'.intent.status, stateVersion := s'.intent.stateVersion)
    && s.intent.stateVersion <= s'.intent.stateVersion
    && s.approvals <= s'.approvals && s.observations <= s'.observations && s.events <= s'.events
    && EnvelopesEvolve(s.envelopes, s'.envelopes)
    && DecisionFinal(s, s')
    && (Frozen(s) ==> s'.observations == s.observations)
  }

  ghost predicate WorldEvolves(w: World, w': World) {
    && RegistryGrows(w.registry, w'.registry)
    && forall id :: id in w.book ==> id in w'.book && SliceEvolves(w.book[id], w'.book[id])
  }

  lemma {:induction false} SliceStays(s: Slice)
    ensures SliceEvolves(s, s)
  {
  }

  lemma {:induction false} SliceEvolvesOn(a: Slice, b: Slice, c: Slice)
    requires SliceEvolves(a, b) && SliceEvolves(b, c)
    ensures SliceEvolves(a, c)
  {
    assert EnvelopesEvolve(a.envelopes, c.envelopes) by {
      forall e | e in a.envelopes ensures e in c.envelopes && EnvelopeEvolves(a.envelopes[e], c.envelopes[e]) {
        assert EnvelopeEvolves(a.envelopes[e], b.envelopes[e]) && EnvelopeEvolves(b.envelopes[e], c.envelopes[e]);
      }
    }
  }

  lemma {:induction false} WorldEvolvesOn(a: World, b: World, c: World)
    requires WorldEvolves(a, b) && WorldEvolves(b, c)
    ensures WorldEvolves(a, c)
  {
    hide SliceEvolves;
    forall id | id in a.book ensures id in c.book && SliceEvolves(a.book[id], c.book[id]) {
      SliceEvolvesOn(a.book[id], b.book[id], c.book[id]);
    }
  }

  lemma {:induction false} UpdateEvolves(w: World, id: Id, s': Slice)
    requires id in w.book ==> SliceEvolves(w.book[id], s')
    ensures WorldEvolves(w, w.(book := w.book[id := s']))
  {
    forall other | other in w.book ensures SliceEvolves(w.book[other], w.book[id := s'][other]) {
      if other != id { SliceStays(w.book[other]); }
    }
  }

  lemma {:induction false} WorldStays(w: World)
    ensures WorldEvolves(w, w)
  {
    forall id | id in w.book ensures SliceEvolves(w.book[id], w.book[id]) { SliceStays(w.book[id]); }
  }

  lemma {:induction false} ExpiredEvolves(s: Slice, at: int)
    requires s.intent.status == AwaitingApproval
    ensures SliceEvolves(s, ExpiredSlice(s, at))
  {
  }

  lemma {:induction false} CancelledEvolves(s: Slice, actorId: string, at: int)
    requires s.intent.status == AwaitingApproval
    ensures SliceEvolves(s, CancelledSlice(s, actorId, at))
  {
  }

  lemma {:induction false} ReviewedEvolves(cfg: Config, s: Slice, actorId: string, role: Role, decision: Decision,
                                           at: int)
    requires s.intent.status == AwaitingApproval
    ensures SliceEvolves(s, ReviewedSlice(cfg, s, actorId, role, decision, at))
  {
  }

  lemma {:induction false} ObservedEvolves(s: Slice, o: Observation, actorId: string)
    requires !Frozen(s)
    ensures SliceEvolves(s, ObservedSlice(s, o, actorId))
  {
  }

  lemma {:induction false} IssuedEvolves(s: Slice, eid: Id, env: Envelope, actorId: string)
    requires eid !in s.envelopes
    ensures SliceEvolves(s, IssuedSlice(s, eid, env, actorId))
  {
  }

  lemma {:induction false} ConsumedEvolves(s: Slice, eid: Id, audience: string, actorId: string, key: string, at: int)
    requires eid in s.envelopes && s.envelopes[eid].consumedAt.None?
    ensures SliceEvolves(s, ConsumedSlice(s, eid, audience, actorId, key, at))
  {
  }

  lemma {:induction false} SweepEvolves(w: World, now: int)
    ensures WorldEvolves(w, Sweep(w, now).world)
  {
    hide SliceEvolves;
    forall id | id in w.book ensures SliceEvolves(w.book[id], Sweep(w, now).world.book[id]) {
      SliceStays(w.book[id]);
      if Due(w.book[id], now) { ExpiredEvolves(w.book[id], now); }
    }
  }

  lemma {:induction false} DecisionEvolves(cfg: Config, w: World, op: Op)
    requires op.ReviewOp? || op.CancelOp?
    ensures WorldEvolves(w, Apply(cfg, w, op))
  {
    hide SliceEvolves, WorldEvolves, Green, ExpiredSlice, ReviewedSlice, CancelledSlice, CanAppend, HasReviewed,
         IdentifierOk;
    WorldStays(w);
    if w.signer.Some? && Apply(cfg, w, op) != w {
      var s := w.book[op.id];
      if s.intent.expiresAt <= op.at {
        ExpiredEvolves(s, op.at);
        UpdateEvolves(w, op.id, ExpiredSlice(s, op.at));
      } else if op.ReviewOp? {
        ReviewedEvolves(cfg, s, op.actorId, op.role, op.decision, op.at);
        UpdateEvolves(w, op.id, ReviewedSlice(cfg, s, op.actorId, op.role, op.decision, op.at));
      } else {
        CancelledEvolves(s, op.actorId, op.at);
        UpdateEvolves(w, op.id, CancelledSlice(s, op.actorId, op.at));
      }
    }
  }

  lemma {:induction false} EvidenceEvolves(cfg: Config, w: World, op: Op)
    requires op.ObserveOp? || op.IssueOp? || op.ConsumeOp?
    ensures WorldEvolves(w, Apply(cfg, w, op))
  {
    hide SliceEvolves, WorldEvolves, Green, Verify, View, Reissue, StrictClaims, NewEnvelope, IssuedClaims, IssuedSlice,
         ObservedSlice, ConsumedSlice, ObservationOk, IdentifierOk, CanAppend, EnvelopeApprovals;
    WorldStays(w);
    if w.signer.Some? && Apply(cfg, w, op) != w {
      match op
      case ObserveOp(id, oid, status, ref, actorId, at) =>
        var o := Observation(oid, id, status, ref, at);
        ObservedEvolves(w.book[id], o, actorId);
        UpdateEvolves(w, id, ObservedSlice(w.book[id], o, actorId));
      case IssueOp(id, audience, key, ttl, actorId, role, at, eid, nonce) =>
        var c := IssuedClaims(cfg, w.book[id], eid, nonce, ttl, at);
        var env := NewEnvelope(cfg, w.book[id], c, key, w.signer.value);
        IssuedEvolves(w.book[id], eid, env, actorId);
        UpdateEvolves(w, id, IssuedSlice(w.book[id], eid, env, actorId));
      case ConsumeOp(compact, audience, actorId, role, key, verifyAt, expiryAt, consumeAt) =>
        var eid := Verify(cfg, w, compact, audience, verifyAt).claims.value.jti;
        var id := OwnerOf(w.book, eid).value;
        ConsumedEvolves(w.book[id], eid, audience, actorId, key, consumeAt);
        UpdateEvolves(w, id, ConsumedSlice(w.book[id], eid, audience, actorId, key, consumeAt));
    }
  }

  lemma {:induction false} CreateEvolves(cfg: Config, w: World, p: Proposal, id: Uuid, policyAt: int, createdAt: int)
    ensures WorldEvolves(w, Create(cfg, w, p, id, policyAt, createdAt).world)
  {
    hide SliceEvolves;
    WorldStays(w);
    var w' := Create(cfg, w, p, id, policyAt, createdAt).world;
    if w' != w { UpdateEvolves(w, id, w'.book[id]); }
  }

  lemma {:induction false} RestartEvolves(cfg: Config, w: World, start: Start)
    requires WorldInv(cfg, w)
    ensures WorldEvolves(w, Restart(cfg, w, start))
  {
    hide SliceEvolves, SliceInv;
    WorldStays(w);
    StartupOutcome(cfg, w.registry, w.book != map[], start.signer, start.at);
  }

  lemma {:induction false} ApplyEvolves(cfg: Config, w: World, op: Op)
    requires WorldInv(cfg, w)
    ensures WorldEvolves(w, Apply(cfg, w, op))
  {
    hide SliceEvolves, SliceInv;
    WorldStays(w);
    match op
    case SweepOp(now) => SweepEvolves(w, now);
    case CreateOp(p, id, policyAt, createdAt) => CreateEvolves(cfg, w, p, id, policyAt, createdAt);
    case ReviewOp(_, _, _, _, _) => DecisionEvolves(cfg, w, op);
    case CancelOp(_, _, _, _) => DecisionEvolves(cfg, w, op);
    case RestartOp(start) => RestartEvolves(cfg, w, start);
    case _ => EvidenceEvolves(cfg, w, op);
  }

  lemma {:induction false} RunEvolves(cfg: Config, w: World, ops: seq<Op>)
    requires WorldInv(cfg, w)
    ensures WorldEvolves(w, Run(cfg, w, ops)) && WorldInv(cfg, Run(cfg, w, ops))
  {
    hide SliceEvolves, SliceInv, Apply;
    RunKeeps(cfg, w, ops);
    if ops == [] {
      WorldStays(w);
    } else {
      var before := Run(cfg, w, ops[..|ops| - 1]);
      RunEvolves(cfg, w, ops[..|ops| - 1]);
      ApplyEvolves(cfg, before, Last(ops));
      WorldEvolvesOn(w, before, Apply(cfg, before, Last(ops)));
    }
  }
}
