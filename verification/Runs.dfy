// Whole runs of the service: any sequence of operations, any clock readings, any
// restarts. Every reachable world satisfies the invariant, so every report is green.
module Runs {
  import opened Basics
  import opened Evidence
  import opened Integrity
  import opened Operations
  import opened Invariant
  import opened Preservation
  import opened EnvelopeLife
  import opened SigningKeys
  import opened Store

  ghost predicate OwnersUnique(book: Book) {
    forall a, b, e :: a in book && b in book && e in book[a].envelopes && e in book[b].envelopes ==> a == b
  }

  ghost predicate AllSlicesInv(cfg: Config, reg: Registry, book: Book) {
    forall id :: id in book ==> SliceInv(cfg, reg, id, book[id])
  }

  ghost predicate WorldInv(cfg: Config, w: World) {
    && ConfigOk(cfg)
    && RegistryInv(cfg, w.registry)
    && (w.signer.Some? ==> KeyRegistered(cfg, w.registry, w.signer.value))
    && (w.book != map[] ==> w.registry.root.Some?)
    && OwnersUnique(w.book)
    && AllSlicesInv(cfg, w.registry, w.book)
  }

  // Replacing one intent's evidence by a good one, with no envelope id taken from another intent.
  lemma {:induction false} UpdateKeeps(cfg: Config, w: World, id: Id, s': Slice)
    requires WorldInv(cfg, w) && w.signer.Some?
    requires SliceInv(cfg, w.registry, id, s')
    requires forall e, other :: e in s'.envelopes && other in w.book && other != id ==> e !in w.book[other].envelopes
    ensures WorldInv(cfg, w.(book := w.book[id := s']))
  {
    hide SliceInv;
  }

  lemma {:induction false} SameEnvelopes(w: World, id: Id, s': Slice)
    requires OwnersUnique(w.book) && id in w.book && s'.envelopes.Keys == w.book[id].envelopes.Keys
    ensures forall e, other :: e in s'.envelopes && other in w.book && other != id ==> e !in w.book[other].envelopes
  {
  }

  lemma {:induction false} SameEnvelopesIn(cfg: Config, w: World, id: Id, s': Slice)
    requires WorldInv(cfg, w) && id in w.book && s'.envelopes.Keys == w.book[id].envelopes.Keys
    ensures forall e, other :: e in s'.envelopes && other in w.book && other != id ==> e !in w.book[other].envelopes
  {
    hide SliceInv;
    SameEnvelopes(w, id, s');
  }

  lemma {:induction false} ExpiryKeeps(cfg: Config, reg: Registry, id: Id, s: Slice, at: int)
    requires SliceInv(cfg, reg, id, s) && s.intent.status == AwaitingApproval && CanAppend(s, at)
    ensures SliceInv(cfg, reg, id, ExpiredSlice(s, at))
  {
    TerminalKeeps(cfg, reg, id, s, Expired, ProposalExpired, "parimit-clock", at);
  }

  // An awaiting intent past its deadline can always be expired: appendAudit's rollback
  // guard cannot fire, since every event so far came before the deadline.
  lemma {:induction false} DueCanAppend(cfg: Config, reg: Registry, id: Id, s: Slice, now: int)
    requires SliceInv(cfg, reg, id, s) && Due(s, now)
    ensures CanAppend(s, now)
  {
    assert BeforeDeadline(s);
  }

  lemma {:induction false} DueKeeps(cfg: Config, reg: Registry, id: Id, s: Slice, now: int)
    requires SliceInv(cfg, reg, id, s) && Due(s, now)
    ensures CanAppend(s, now) && SliceInv(cfg, reg, id, ExpiredSlice(s, now))
  {
    DueCanAppend(cfg, reg, id, s, now);
    ExpiryKeeps(cfg, reg, id, s, now);
  }

  lemma {:induction false} SweepNeverBlocked(cfg: Config, w: World, now: int)
    requires WorldInv(cfg, w)
    ensures !SweepBlocked(w.book, now)
  {
    hide SliceInv;
    forall id | id in w.book && Due(w.book[id], now) ensures CanAppend(w.book[id], now) {
      DueKeeps(cfg, w.registry, id, w.book[id], now);
    }
  }

  lemma {:induction false} SweepKeeps(cfg: Config, w: World, now: int)
    requires WorldInv(cfg, w) && w.signer.Some?
    ensures WorldInv(cfg, Sweep(w, now).world)
  {
    hide SliceInv;
    SweepNeverBlocked(cfg, w, now);
    var book' := SweptBook(w.book, now);
    forall id | id in book' ensures SliceInv(cfg, w.registry, id, book'[id]) {
      assert SliceInv(cfg, w.registry, id, w.book[id]);
      if Due(w.book[id], now) { DueKeeps(cfg, w.registry, id, w.book[id], now); }
    }
    assert forall id :: id in book' ==> book'[id].envelopes == w.book[id].envelopes;
  }

  lemma {:induction false} CreateKeeps(cfg: Config, w: World, p: Proposal, id: Uuid, policyAt: int, createdAt: int)
    requires WorldInv(cfg, w) && w.signer.Some?
    ensures WorldInv(cfg, Create(cfg, w, p, id, policyAt, createdAt).world)
  {
    hide SliceInv;
    if Create(cfg, w, p, id, policyAt, createdAt).world != w {
      var exposure := Exposure.DailyExposure(w.book, cfg.tenantId, p.agentId, policyAt);
      CreationEstablishes(cfg, w.registry, id, p, exposure, createdAt);
      UpdateKeeps(cfg, w, id, NewSlice(cfg, id, p, DecidePolicy(cfg, exposure, p), createdAt));
    }
  }

  lemma {:induction false} DeadlineKeeps(cfg: Config, w: World, id: Id, at: int)
    requires WorldInv(cfg, w) && w.signer.Some? && id in w.book && Due(w.book[id], at)
    ensures WorldInv(cfg, EnforceDeadline(w, id, at).world)
    ensures EnforceDeadline(w, id, at).result == Err(ProposalExpiredError)
  {
    hide SliceInv;
    var s := w.book[id];
    DueKeeps(cfg, w.registry, id, s, at);
    SameEnvelopes(w, id, ExpiredSlice(s, at));
    UpdateKeeps(cfg, w, id, ExpiredSlice(s, at));
  }

  lemma {:induction false} ReviewOpKeeps(cfg: Config, w: World, id: Id, actorId: string, role: Role, decision: Decision,
                                         at: int)
    requires WorldInv(cfg, w) && w.signer.Some?
    ensures WorldInv(cfg, Review(cfg, w, id, actorId, role, decision, at).world)
  {
    hide SliceInv, Green;
    var w' := Review(cfg, w, id, actorId, role, decision, at).world;
    if w' != w {
      var s := w.book[id];
      if s.intent.expiresAt <= at {
        DeadlineKeeps(cfg, w, id, at);
      } else {
        assert MayReview(s, actorId, role, at);
        ReviewKeeps(cfg, w.registry, id, s, actorId, role, decision, at);
        SameEnvelopes(w, id, ReviewedSlice(cfg, s, actorId, role, decision, at));
        UpdateKeeps(cfg, w, id, ReviewedSlice(cfg, s, actorId, role, decision, at));
      }
    }
  }

  lemma {:induction false} CancelOpKeeps(cfg: Config, w: World, id: Id, actorId: string, role: Role, at: int)
    requires WorldInv(cfg, w) && w.signer.Some?
    ensures WorldInv(cfg, Cancel(cfg, w, id, actorId, role, at).world)
  {
    hide SliceInv, Green;
    var w' := Cancel(cfg, w, id, actorId, role, at).world;
    if w' != w {
      var s := w.book[id];
      if s.intent.expiresAt <= at {
        DeadlineKeeps(cfg, w, id, at);
      } else {
        TerminalKeeps(cfg, w.registry, id, s, Cancelled, ProposalCancelled, actorId, at);
        SameEnvelopes(w, id, CancelledSlice(s, actorId, at));
        UpdateKeeps(cfg, w, id, CancelledSlice(s, actorId, at));
      }
    }
  }

  lemma {:induction false} ObserveOpKeeps(cfg: Config, w: World, id: Id, oid: Uuid, status: ObservationStatus,
                                          ref: Option<string>, actorId: string, at: int)
    requires WorldInv(cfg, w) && w.signer.Some?
    ensures WorldInv(cfg, Observe(cfg, w, id, oid, status, ref, actorId, at).world)
  {
    hide SliceInv, Green;
    var w' := Observe(cfg, w, id, oid, status, ref, actorId, at).world;
    if w' != w {
      var s := w.book[id];
      var o := Observation(oid, id, status, ref, at);
      ObserveKeeps(cfg, w.registry, id, s, o, actorId);
      SameEnvelopes(w, id, ObservedSlice(s, o, actorId));
      UpdateKeeps(cfg, w, id, ObservedSlice(s, o, actorId));
    }
  }

  // What the invariant says of one stored envelope.
  lemma {:induction false} EnvelopeFacts(cfg: Config, reg: Registry, id: Id, s: Slice, eid: Id)
    requires SliceInv(cfg, reg, id, s) && eid in s.envelopes
    ensures var env := s.envelopes[eid];
      && EnvelopeValid(cfg, reg, id, s.events, eid, env) && s.intent.id == id
      && env.compact.Jws? && env.compact.document.ClaimsDocument?
      && var c := env.compact.document.claims;
      && VerifiedClaims(cfg, reg, env.keyId, env.compact) == Some(c) && StrictClaims(c)
      && ClaimsBind(cfg, s, c) && c.jti == eid
      && env.compact.kid == env.keyId && ExactArtifact(env, env.compact, c)
      && env.intentId == id && env.tenantId == cfg.tenantId && env.audience == cfg.audience
      && env.stateVersion == s.intent.stateVersion == c.authorizationStateVersion
      && env.issuedAt == c.issuedAt && env.expiresAt == c.exp * 1000
      && s.intent.status == AuthorizedNoDispatch && |s.envelopes| == 1
  {
    assert EnvelopeValid(cfg, reg, s.intent.id, s.events, eid, s.envelopes[eid]);
    OneEnvelope(s, eid);
  }

  // With one audience per deployment, an intent that has an envelope has the one for its state.
  lemma {:induction false} NoEnvelopeForState(cfg: Config, reg: Registry, id: Id, s: Slice)
    requires SliceInv(cfg, reg, id, s) && FindForState(cfg, s, cfg.audience).None?
    ensures s.envelopes == map[]
  {
    hide SliceInv;
    forall e | e in s.envelopes ensures ForState(s.envelopes[e], cfg, s, cfg.audience) {
      EnvelopeFacts(cfg, reg, id, s, e);
    }
  }

  lemma {:induction false} IssueOpKeeps(cfg: Config, w: World, id: Id, audience: string, key: string, ttl: int,
                                        actorId: string, role: Role, at: int, eid: Uuid, nonce: Nonce)
    requires WorldInv(cfg, w) && w.signer.Some?
    ensures WorldInv(cfg, Issue(cfg, w, id, audience, key, ttl, actorId, role, at, eid, nonce).world)
  {
    hide SliceInv, Green, IssuedClaims, NewEnvelope, StrictClaims, View, Reissue, IdentifierOk, FindForState;
    var w' := Issue(cfg, w, id, audience, key, ttl, actorId, role, at, eid, nonce).world;
    if w' != w {
      var s := w.book[id];
      assert SliceInv(cfg, w.registry, id, s);
      NoEnvelopeForState(cfg, w.registry, id, s);
      assert MayIssue(cfg, s, ttl, at);
      var signer := w.signer.value;
      IssueKeeps(cfg, w.registry, id, s, eid, nonce, ttl, at, key, signer, actorId);
      var c := IssuedClaims(cfg, s, eid, nonce, ttl, at);
      var s' := IssuedSlice(s, eid, NewEnvelope(cfg, s, c, key, signer), actorId);
      assert s'.envelopes.Keys == {eid};
      UpdateKeeps(cfg, w, id, s');
    }
  }

  // Consumption gets past verification only under the deployment's own audience.
  lemma {:induction false} ConsumedAudience(cfg: Config, w: World, compact: CompactJws, audience: string, now: int,
                                            expiryAt: int)
    requires var v := Verify(cfg, w, compact, audience, now); v.valid || ExpiredButOtherwiseValid(v, expiryAt)
    ensures Verify(cfg, w, compact, audience, now).claims.Some? && audience == cfg.audience
  {
    hide LocallyIssued, BindingValid, StrictClaims, TrustedJwk, SignatureVerifies, TimeValidNow;
  }

  // What a consumption that changes anything has checked.
  lemma {:induction false} ConsumeChanges(cfg: Config, w: World, compact: CompactJws, audience: string, actorId: string,
                                          role: Role, key: string, verifyAt: int, expiryAt: int, consumeAt: int)
    returns (id: Id, eid: Id)
    requires Consume(cfg, w, compact, audience, actorId, role, key, verifyAt, expiryAt, consumeAt).world != w
    ensures id in w.book && MayConsumeNow(cfg, w.book[id], eid, audience, consumeAt)
    ensures Consume(cfg, w, compact, audience, actorId, role, key, verifyAt, expiryAt, consumeAt).world
         == w.(book := w.book[id := ConsumedSlice(w.book[id], eid, audience, actorId, key, consumeAt)])
  {
    hide Verify, View, ConsumedSlice, CanAppend;
    ConsumedAudience(cfg, w, compact, audience, verifyAt, expiryAt);
    eid := Verify(cfg, w, compact, audience, verifyAt).claims.value.jti;
    id := OwnerOf(w.book, eid).value;
  }

  ghost predicate MayConsumeNow(cfg: Config, s: Slice, eid: Id, audience: string, at: int) {
    && eid in s.envelopes && s.envelopes[eid].consumedAt.None? && audience == cfg.audience
    && s.envelopes[eid].issuedAt <= at < s.envelopes[eid].expiresAt && CanAppend(s, at)
  }

  lemma {:induction false} ConsumeOpKeeps(cfg: Config, w: World, compact: CompactJws, audience: string, actorId: string,
                                          role: Role, key: string, verifyAt: int, expiryAt: int, consumeAt: int)
    requires WorldInv(cfg, w) && w.signer.Some?
    ensures WorldInv(cfg, Consume(cfg, w, compact, audience, actorId, role, key, verifyAt, expiryAt, consumeAt).world)
  {
    hide SliceInv, Consume;
    if Consume(cfg, w, compact, audience, actorId, role, key, verifyAt, expiryAt, consumeAt).world != w {
      var id, eid := ConsumeChanges(cfg, w, compact, audience, actorId, role, key, verifyAt, expiryAt, consumeAt);
      var s := w.book[id];
      EnvelopeFacts(cfg, w.registry, id, s, eid);
      assert MayConsume(s, eid, audience, consumeAt);
      ConsumeKeeps(cfg, w.registry, id, s, eid, audience, actorId, key, consumeAt);
      var s' := ConsumedSlice(s, eid, audience, actorId, key, consumeAt);
      assert s'.envelopes.Keys == s.envelopes.Keys;
      hide WorldInv, ConsumedSlice;
      SameEnvelopesIn(cfg, w, id, s');
      UpdateKeeps(cfg, w, id, s');
    }
  }

  lemma {:induction false} RestartKeeps(cfg: Config, w: World, start: Start)
    requires WorldInv(cfg, w)
    ensures WorldInv(cfg, Restart(cfg, w, start))
  {
    hide SliceInv;
    var history := w.book != map[];
    StartupOutcome(cfg, w.registry, history, start.signer, start.at);
    var w' := Restart(cfg, w, start);
    forall id | id in w'.book ensures SliceInv(cfg, w'.registry, id, w'.book[id]) {
      RegistryKeeps(cfg, w.registry, w'.registry, id, w.book[id]);
    }
  }

  lemma {:induction false} ApplyKeeps(cfg: Config, w: World, op: Op)
    requires WorldInv(cfg, w)
    ensures WorldInv(cfg, Apply(cfg, w, op))
  {
    hide WorldInv, Restart, Sweep, Create, Review, Cancel, Observe, Issue, Consume;
    if op.RestartOp? { RestartKeeps(cfg, w, op.start); }
    else if w.signer.Some? {
      match op
      case SweepOp(now) => SweepKeeps(cfg, w, now);
      case CreateOp(p, id, policyAt, createdAt) => CreateKeeps(cfg, w, p, id, policyAt, createdAt);
      case ReviewOp(id, actorId, role, decision, at) => ReviewOpKeeps(cfg, w, id, actorId, role, decision, at);
      case CancelOp(id, actorId, role, at) => CancelOpKeeps(cfg, w, id, actorId, role, at);
      case ObserveOp(id, oid, status, ref, actorId, at) => ObserveOpKeeps(cfg, w, id, oid, status, ref, actorId, at);
      case IssueOp(id, audience, key, ttl, actorId, role, at, eid, nonce) =>
        IssueOpKeeps(cfg, w, id, audience, key, ttl, actorId, role, at, eid, nonce);
      case ConsumeOp(compact, audience, actorId, role, key, verifyAt, expiryAt, consumeAt) =>
        ConsumeOpKeeps(cfg, w, compact, audience, actorId, role, key, verifyAt, expiryAt, consumeAt);
      case RestartOp(_) =>
    }
  }

  lemma {:induction false} RunKeeps(cfg: Config, w: World, ops: seq<Op>)
    requires WorldInv(cfg, w)
    ensures WorldInv(cfg, Run(cfg, w, ops))
  {
    if ops != [] {
      RunKeeps(cfg, w, ops[..|ops| - 1]);
      ApplyKeeps(cfg, Run(cfg, w, ops[..|ops| - 1]), Last(ops));
    }
  }

  // Every report on every intent of every reachable world is valid.
  lemma {:induction false} EveryRunIsGreen(cfg: Config, ops: seq<Op>, id: Id)
    requires ConfigOk(cfg) && id in Run(cfg, EMPTY_WORLD, ops).book
    ensures var w := Run(cfg, EMPTY_WORLD, ops); Green(cfg, w.registry, w.book[id])
  {
    RunKeeps(cfg, EMPTY_WORLD, ops);
    hide Green;
    var w := Run(cfg, EMPTY_WORLD, ops);
    assert SliceInv(cfg, w.registry, id, w.book[id]);
  }

  // A world some run of operations leads to, from an empty database.
  ghost predicate Reachable(cfg: Config, w: World) {
    ConfigOk(cfg) && exists ops :: w == Run(cfg, EMPTY_WORLD, ops)
  }

  lemma {:induction false} ReachableInv(cfg: Config, w: World)
    requires Reachable(cfg, w)
    ensures WorldInv(cfg, w)
  {
    var ops :| w == Run(cfg, EMPTY_WORLD, ops);
    RunKeeps(cfg, EMPTY_WORLD, ops);
  }
}
