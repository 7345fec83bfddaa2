// The way through: nothing internal ever stops an operation, and a proposal the policy
// allows can be carried from creation to a consumed envelope by people acting in time.
module Journey {
  import opened Basics
  import opened Ordering
  import opened Evidence
  import opened Integrity
  import opened Exposure
  import opened Operations
  import opened Invariant
  import opened EnvelopeLife
  import opened Store
  import opened Runs
  import opened Guarantees
  import opened Proposals

  // The errors the service reports when its own evidence does not hold up.
  predicate Internal(error: Error) {
    error.IntegrityFailure? || error.IntentHashMismatchError? || error.MalformedEnvelope?
  }

  lemma {:induction false} ReviewNeverFailsInternally(cfg: Config, w: World, id: Id, actorId: string, role: Role,
                                                      decision: Decision, at: int)
    requires Reachable(cfg, w)
    ensures var r := Review(cfg, w, id, actorId, role, decision, at).result; r.Err? ==> !Internal(r.error)
  {
    hide Reachable, Green, SliceInv, WorldInv, CanAppend, HasReviewed, ReviewedSlice, ExpiredSlice;
    ReachableInv(cfg, w);
    if id in w.book { GreenInWorld(cfg, w, id); }
  }

  lemma {:induction false} CancelNeverFailsInternally(cfg: Config, w: World, id: Id, actorId: string, role: Role,
                                                      at: int)
    requires Reachable(cfg, w)
    ensures var r := Cancel(cfg, w, id, actorId, role, at).result; r.Err? ==> !Internal(r.error)
  {
    hide Reachable, Green, SliceInv, WorldInv, CanAppend, CancelledSlice, ExpiredSlice;
    ReachableInv(cfg, w);
    if id in w.book { GreenInWorld(cfg, w, id); }
  }

  lemma {:induction false} ObserveNeverFailsInternally(cfg: Config, w: World, id: Id, oid: Uuid,
                                                       status: ObservationStatus, reference: Option<string>,
                                                       actorId: string, at: int)
    requires Reachable(cfg, w)
    ensures var r := Observe(cfg, w, id, oid, status, reference, actorId, at).result; r.Err? ==> !Internal(r.error)
  {
    hide Reachable, Green, SliceInv, WorldInv, CanAppend, Frozen, ObservedSlice;
    ReachableInv(cfg, w);
    if id in w.book { GreenInWorld(cfg, w, id); }
  }

  // An authorized proposal's approval list has exactly the required length.
  lemma {:induction false} ListComplete(cfg: Config, reg: Registry, id: Id, s: Slice)
    requires SliceInv(cfg, reg, id, s) && s.intent.status == AuthorizedNoDispatch
    ensures |EnvelopeApprovals(s)| == s.intent.requiredApprovals >= 1 && s.intent.policyReasons.Some?
  {
    InvariantParts(cfg, reg, id, s);
    AuthorizedVersion(cfg, reg, id, s);
    ListLength(s);
    hide SliceInv, Green, Lifecycle;
  }

  lemma {:induction false} ListLength(s: Slice)
    requires Phase(s) && s.intent.status == AuthorizedNoDispatch
    ensures |EnvelopeApprovals(s)| == |s.approvals|
  {
    ApproveRowsAll(s.approvals);
    SortOnSorts(ApproveRows(s.approvals), ApprovalKey);
    hide SortOn, ApproveRows;
  }

  lemma {:induction false} FirstIssueIsClean(cfg: Config, w: World, id: Id, key: string, ttl: int, actorId: string,
                                             at: int, eid: Uuid, nonce: Nonce)
    requires WorldInv(cfg, w) && w.signer.Some? && id in w.book && 1 <= ttl <= cfg.envelopeTtlSeconds
    requires w.book[id].intent.status == AuthorizedNoDispatch && w.book[id].envelopes == map[]
    requires WorldInv(cfg, FirstIssue(cfg, w, id, key, ttl, actorId, at, eid, nonce).world)
    ensures var r := FirstIssue(cfg, w, id, key, ttl, actorId, at, eid, nonce).result;
      (r.Err? ==> !Internal(r.error)) && (r.Ok? ==> r.value == eid)
  {
    hide Green, SliceInv, StrictClaims, View, IssuedClaims, NewEnvelope, EnvelopeApprovals, EnvelopeKeysFree;
    var s := w.book[id];
    ListComplete(cfg, w.registry, id, s);
    if MaySign(cfg, s, ttl, at) { SigningIsStrict(cfg, w.registry, id, s, eid, nonce, ttl, at); }
    var w' := FirstIssue(cfg, w, id, key, ttl, actorId, at, eid, nonce).world;
    if w' != w { ViewSucceeds(cfg, w', id, eid); }
  }

  lemma {:induction false} ReissueIsClean(cfg: Config, w: World, id: Id, key: string, ttl: int)
    requires WorldInv(cfg, w) && id in w.book && w.book[id].envelopes != map[]
    ensures var s := w.book[id];
      && FindForState(cfg, s, cfg.audience).Some?
      && var e := FindForState(cfg, s, cfg.audience).value;
      var r := Reissue(cfg, w.registry, s, e, key, ttl);
      r.Err? ==> !Internal(r.error)
  {
    hide Green, SliceInv, WorldInv, StrictClaims, View, FindForState;
    var s := w.book[id];
    SliceIn(cfg, w, id);
    FoundForState(cfg, w.registry, id, s);
    var e := FindForState(cfg, s, cfg.audience).value;
    ViewSucceeds(cfg, w, id, e);
    EnvelopeFacts(cfg, w.registry, id, s, e);
  }

  lemma {:induction false} SliceIn(cfg: Config, w: World, id: Id)
    requires WorldInv(cfg, w) && id in w.book
    ensures SliceInv(cfg, w.registry, id, w.book[id])
  {
    hide SliceInv;
  }

  lemma {:induction false} IssueNeverFailsInternally(cfg: Config, w: World, id: Id, audience: string, key: string,
                                                     ttl: int, actorId: string, role: Role, at: int, eid: Uuid,
                                                     nonce: Nonce)
    requires Reachable(cfg, w) && w.signer.Some?
    ensures var r := Issue(cfg, w, id, audience, key, ttl, actorId, role, at, eid, nonce).result;
      r.Err? ==> !Internal(r.error)
  {
    hide Reachable, Green, SliceInv, WorldInv, FirstIssue, Reissue, FindForState;
    ReachableInv(cfg, w);
    IssueOpKeeps(cfg, w, id, audience, key, ttl, actorId, role, at, eid, nonce);
    if id in w.book {
      GreenInWorld(cfg, w, id);
      SliceIn(cfg, w, id);
      FoundForState(cfg, w.registry, id, w.book[id]);
      if w.book[id].envelopes != map[] {
        ReissueIsClean(cfg, w, id, key, ttl);
      } else if Issue(cfg, w, id, audience, key, ttl, actorId, role, at, eid, nonce)
                == FirstIssue(cfg, w, id, key, ttl, actorId, at, eid, nonce)
                && w.book[id].intent.status == AuthorizedNoDispatch && 1 <= ttl <= cfg.envelopeTtlSeconds {
        FirstIssueIsClean(cfg, w, id, key, ttl, actorId, at, eid, nonce);
      }
    }
  }

  lemma {:induction false} ConsumeNeverFailsInternally(cfg: Config, w: World, compact: CompactJws, audience: string,
                                                       actorId: string, role: Role, key: string, verifyAt: int,
                                                       expiryAt: int, consumeAt: int)
    requires Reachable(cfg, w) && w.signer.Some?
    ensures var r := Consume(cfg, w, compact, audience, actorId, role, key, verifyAt, expiryAt, consumeAt).result;
      r.Err? ==> !Internal(r.error)
  {
    hide Reachable, Green, SliceInv, View, Verify, WorldInv;
    ReachableInv(cfg, w);
    ConsumeOpKeeps(cfg, w, compact, audience, actorId, role, key, verifyAt, expiryAt, consumeAt);
    var v := Verify(cfg, w, compact, audience, verifyAt);
    if v.claims.Some? && OwnerOf(w.book, v.claims.value.jti).Some? {
      var eid := v.claims.value.jti;
      var id := OwnerOf(w.book, eid).value;
      var w' := Consume(cfg, w, compact, audience, actorId, role, key, verifyAt, expiryAt, consumeAt).world;
      ViewSucceeds(cfg, w, id, eid);
      if id in w'.book && eid in w'.book[id].envelopes { ViewSucceeds(cfg, w', id, eid); }
    }
  }

  // ----- from a proposal to a consumed envelope -----

  // One person's approval, and when it arrives.
  datatype Signoff = Signoff(actorId: string, role: Role, at: int)

  // Different people, none of them the agent, one after the other from a given moment on.
  predicate InOrder(signoffs: seq<Signoff>, agent: string, since: int) {
    && (forall i :: 0 <= i < |signoffs| ==>
          && IdentifierOk(signoffs[i].actorId) && IsHumanRole(signoffs[i].role)
          && signoffs[i].actorId != agent && since <= signoffs[i].at)
    && (forall i, j :: 0 <= i < j < |signoffs| ==>
          signoffs[i].actorId != signoffs[j].actorId && signoffs[i].at <= signoffs[j].at)
  }

  // The store after those approvals.
  ghost function Signed(cfg: Config, w: World, id: Id, signoffs: seq<Signoff>): World {
    if signoffs == [] then w
    else
      var last := Last(signoffs);
      Review(cfg, Signed(cfg, w, id, signoffs[..|signoffs| - 1]), id, last.actorId, last.role, Approve, last.at).world
  }

  ghost predicate AllAccepted(cfg: Config, w: World, id: Id, signoffs: seq<Signoff>) {
    forall i :: 0 <= i < |signoffs| ==>
      var w', x := Signed(cfg, w, id, signoffs[..i]), signoffs[i];
      Review(cfg, w', id, x.actorId, x.role, Approve, x.at).result == Ok(id)
  }

  // The approvals given so far and no others, and nothing recorded after a given moment.
  ghost predicate Given(s: Slice, signoffs: seq<Signoff>, deadline: int, since: int) {
    && s.intent.expiresAt == deadline && |s.approvals| == |signoffs| && s.envelopes == map[] && CanAppend(s, since)
    && forall i :: 0 <= i < |signoffs| ==>
         && s.approvals[i].actorId == signoffs[i].actorId && s.approvals[i].createdAt == signoffs[i].at
         && s.approvals[i].decision == Approve
  }

  // Some approvals are still missing.
  ghost predicate Waiting(s: Slice, agent: string, required: int, signoffs: seq<Signoff>, deadline: int, since: int) {
    && Given(s, signoffs, deadline, since)
    && s.intent.status == AwaitingApproval && s.intent.agentId == agent
    && s.intent.requiredApprovals == required && |signoffs| < required
  }

  ghost predicate Approved(s: Slice, signoffs: seq<Signoff>, deadline: int, since: int) {
    Given(s, signoffs, deadline, since) && s.intent.status == AuthorizedNoDispatch
  }

  ghost predicate Enveloped(s: Slice, eid: Id, ttl: int, at: int) {
    && eid in s.envelopes && s.envelopes[eid].consumedAt.None? && CanAppend(s, at)
    && s.envelopes[eid].issuedAt == at && s.envelopes[eid].expiresAt == Seconds(at + ttl * 1000) * 1000
    && s.envelopes[eid].compact.Jws? && s.envelopes[eid].compact.document.ClaimsDocument?
    && s.envelopes[eid].compact.document.claims.iat == Seconds(at)
    && s.envelopes[eid].compact.document.claims.exp == Seconds(at + ttl * 1000)
  }

  lemma {:induction false} NewSliceWaits(cfg: Config, id: Id, p: Proposal, d: PolicyDecision, createdAt: int)
    requires d.allowed && d.requiredApprovals >= 1
    ensures Waiting(NewSlice(cfg, id, p, d, createdAt), p.agentId, d.requiredApprovals, [],
                    createdAt + p.expiresInSeconds * 1000, createdAt)
  {
    hide InitialPayload, WrittenPayload;
  }

  lemma {:induction false} CreateWaits(cfg: Config, w: World, p: Proposal, id: Uuid, policyAt: int, createdAt: int)
    requires WorldInv(cfg, w) && w.signer.Some? && ProposalOk(cfg, p) && id !in w.book
    requires FindByKey(cfg, w.book, p.agentId, p.idempotencyKey).None?
    requires DecidePolicy(cfg, DailyExposure(w.book, cfg.tenantId, p.agentId, policyAt), p).allowed
    ensures var reply := Create(cfg, w, p, id, policyAt, createdAt);
      && reply.result == Ok(id) && WorldInv(cfg, reply.world) && reply.world.signer == w.signer
      && id in reply.world.book
      && var d := DecidePolicy(cfg, DailyExposure(w.book, cfg.tenantId, p.agentId, policyAt), p);
      Waiting(reply.world.book[id], p.agentId, d.requiredApprovals, [], createdAt + p.expiresInSeconds * 1000,
              createdAt)
  {
    hide WorldInv, FindByKey, DailyExposure, ProposalOk, NewSlice, Waiting;
    CreateKeeps(cfg, w, p, id, policyAt, createdAt);
    var d := DecidePolicy(cfg, DailyExposure(w.book, cfg.tenantId, p.agentId, policyAt), p);
    NewSliceWaits(cfg, id, p, d, createdAt);
  }

  // One more approval is recorded; with the last one the proposal is authorized.
  lemma {:induction false} SignoffRecorded(cfg: Config, s: Slice, agent: string, required: int, given: seq<Signoff>,
                                           deadline: int, since: int, x: Signoff)
    requires Waiting(s, agent, required, given, deadline, since) && since <= x.at
    ensures var s' := ReviewedSlice(cfg, s, x.actorId, x.role, Approve, x.at);
      if |given| + 1 < required then Waiting(s', agent, required, given + [x], deadline, x.at)
      else Approved(s', given + [x], deadline, x.at)
  {
    hide ReviewPayload, NewApproval;
    NewApprovalIs(cfg, s, x);
    ApprovesAll(s.approvals);
  }

  lemma {:induction false} NewApprovalIs(cfg: Config, s: Slice, x: Signoff)
    ensures var a := NewApproval(cfg, s, x.actorId, x.role, Approve, x.at);
      a.actorId == x.actorId && a.createdAt == x.at && a.decision == Approve
  {
  }

  lemma {:induction false} SignoffAccepted(cfg: Config, w: World, id: Id, agent: string, required: int,
                                           given: seq<Signoff>, deadline: int, since: int, x: Signoff)
    requires WorldInv(cfg, w) && w.signer.Some? && id in w.book
    requires Waiting(w.book[id], agent, required, given, deadline, since)
    requires IdentifierOk(x.actorId) && IsHumanRole(x.role) && x.actorId != agent && since <= x.at < deadline
    requires forall i :: 0 <= i < |given| ==> given[i].actorId != x.actorId
    ensures var reply := Review(cfg, w, id, x.actorId, x.role, Approve, x.at);
      && reply.result == Ok(id) && WorldInv(cfg, reply.world) && reply.world.signer == w.signer
      && id in reply.world.book
      && reply.world.book[id] == ReviewedSlice(cfg, w.book[id], x.actorId, x.role, Approve, x.at)
  {
    hide WorldInv, Green, ReviewedSlice;
    ReviewOpKeeps(cfg, w, id, x.actorId, x.role, Approve, x.at);
    GreenInWorld(cfg, w, id);
    assert !HasReviewed(w.book[id], x.actorId);
  }

  function Moment(signoffs: seq<Signoff>, since: int): int { if signoffs == [] then since else Last(signoffs).at }

  lemma {:induction false} InOrderInit(signoffs: seq<Signoff>, agent: string, since: int)
    requires InOrder(signoffs, agent, since) && signoffs != []
    ensures var init, x := signoffs[..|signoffs| - 1], Last(signoffs);
      && InOrder(init, agent, since) && Moment(init, since) <= x.at
      && IdentifierOk(x.actorId) && IsHumanRole(x.role) && x.actorId != agent
      && (forall i :: 0 <= i < |init| ==> init[i].actorId != x.actorId)
  {
    hide IdentifierOk, IsHumanRole;
  }

  lemma {:induction false} AcceptedSnoc(cfg: Config, w: World, id: Id, signoffs: seq<Signoff>)
    requires signoffs != [] && AllAccepted(cfg, w, id, signoffs[..|signoffs| - 1])
    requires var n, x := |signoffs| - 1, Last(signoffs);
      Review(cfg, Signed(cfg, w, id, signoffs[..n]), id, x.actorId, x.role, Approve, x.at).result == Ok(id)
    ensures AllAccepted(cfg, w, id, signoffs)
  {
    hide Review, Signed;
    var init := signoffs[..|signoffs| - 1];
    assert forall i :: 0 <= i < |init| ==> init[i] == signoffs[i] && init[..i] == signoffs[..i];
  }

  // Approvals in order and in time are all accepted, and authorize the proposal once there are enough.
  lemma {:induction false} SignoffsAccepted(cfg: Config, w: World, id: Id, agent: string, required: int,
                                            signoffs: seq<Signoff>, deadline: int, since: int)
    requires WorldInv(cfg, w) && w.signer.Some? && id in w.book
    requires Waiting(w.book[id], agent, required, [], deadline, since)
    requires |signoffs| <= required && InOrder(signoffs, agent, since) && Moment(signoffs, since) < deadline
    ensures var w' := Signed(cfg, w, id, signoffs);
      && AllAccepted(cfg, w, id, signoffs)
      && WorldInv(cfg, w') && w'.signer == w.signer && id in w'.book
      && if |signoffs| < required
         then Waiting(w'.book[id], agent, required, signoffs, deadline, Moment(signoffs, since))
         else Approved(w'.book[id], signoffs, deadline, Moment(signoffs, since))
  {
    hide WorldInv, Waiting, Approved, Review, ReviewedSlice, InOrder, IdentifierOk, IsHumanRole, AllAccepted;
    if signoffs == [] {
      NoneMissing(cfg, w, id);
      assert !(0 >= required) by { WaitingNeeds(w.book[id], agent, required, [], deadline, since); }
    } else {
      var init, x := signoffs[..|signoffs| - 1], Last(signoffs);
      InOrderInit(signoffs, agent, since);
      SignoffsAccepted(cfg, w, id, agent, required, init, deadline, since);
      var before := Signed(cfg, w, id, init);
      SignoffAccepted(cfg, before, id, agent, required, init, deadline, Moment(init, since), x);
      SignoffRecorded(cfg, before.book[id], agent, required, init, deadline, Moment(init, since), x);
      AcceptedSnoc(cfg, w, id, signoffs);
      assert init + [x] == signoffs;
    }
  }

  lemma {:induction false} NoneMissing(cfg: Config, w: World, id: Id)
    ensures AllAccepted(cfg, w, id, [])
  {
  }

  lemma {:induction false} WaitingNeeds(s: Slice, agent: string, required: int, given: seq<Signoff>, deadline: int,
                                        since: int)
    requires Waiting(s, agent, required, given, deadline, since)
    ensures |given| < required
  {
  }

  // No listed approval is later than the last one given.
  lemma {:induction false} ListedBy(s: Slice, signoffs: seq<Signoff>, deadline: int, since: int)
    requires Given(s, signoffs, deadline, since) && 1 <= |signoffs| <= 2
    requires forall i :: 0 <= i < |signoffs| ==> signoffs[i].at <= since
    requires |s.approvals| == 2 ==> s.approvals[0].actorId != s.approvals[1].actorId
    ensures EnvelopeApprovals(s) != [] && Last(EnvelopeApprovals(s)).decidedAt <= since
  {
    hide EnvelopeApprovals, CanAppend;
    EnvelopeApprovalsFacts(s);
    assert ListsApproval(s, Last(EnvelopeApprovals(s)));
  }

  lemma {:induction false} SliceShape(cfg: Config, reg: Registry, id: Id, s: Slice)
    requires SliceInv(cfg, reg, id, s)
    ensures s.intent.requiredApprovals <= 2
    ensures |s.approvals| == 2 ==> s.approvals[0].actorId != s.approvals[1].actorId
  {
    if |s.approvals| == 2 { DistinctPair(s.intent, s.approvals); }
  }

  lemma {:induction false} MaySignNow(cfg: Config, reg: Registry, id: Id, s: Slice, signoffs: seq<Signoff>,
                                      deadline: int, since: int, ttl: int, at: int)
    requires SliceInv(cfg, reg, id, s) && Approved(s, signoffs, deadline, since)
    requires forall i :: 0 <= i < |signoffs| ==> signoffs[i].at <= since
    requires 1 <= ttl <= cfg.envelopeTtlSeconds && since <= at && at + ttl * 1000 <= deadline
    ensures MaySign(cfg, s, ttl, at) && CanAppend(s, at) && |EnvelopeApprovals(s)| == s.intent.requiredApprovals >= 1
  {
    hide SliceInv, EnvelopeApprovals;
    ListComplete(cfg, reg, id, s);
    SliceShape(cfg, reg, id, s);
    AuthorizedCount(cfg, reg, id, s);
    ListedBy(s, signoffs, deadline, since);
  }

  lemma {:induction false} AuthorizedCount(cfg: Config, reg: Registry, id: Id, s: Slice)
    requires SliceInv(cfg, reg, id, s) && s.intent.status == AuthorizedNoDispatch
    ensures |s.approvals| == s.intent.requiredApprovals
  {
  }

  lemma {:induction false} IssuedEnveloped(cfg: Config, s: Slice, ttl: int, at: int, eid: Id, nonce: Nonce, key: string,
                                           signer: SigningKey, actorId: string)
    requires MaySign(cfg, s, ttl, at) && CanAppend(s, at)
    ensures var env := NewEnvelope(cfg, s, IssuedClaims(cfg, s, eid, nonce, ttl, at), key, signer);
      Enveloped(IssuedSlice(s, eid, env, actorId), eid, ttl, at)
  {
    hide EnvelopeApprovals, IssuePayload;
  }

  lemma {:induction false} IssueEnvelops(cfg: Config, w: World, id: Id, signoffs: seq<Signoff>, deadline: int,
                                         since: int, key: string, ttl: int, actorId: string, role: Role, at: int,
                                         eid: Uuid, nonce: Nonce)
    requires WorldInv(cfg, w) && w.signer.Some? && id in w.book && Approved(w.book[id], signoffs, deadline, since)
    requires forall i :: 0 <= i < |signoffs| ==> signoffs[i].at <= since
    requires IdentifierOk(key) && IdentifierOk(actorId) && IsHumanRole(role)
    requires 1 <= ttl <= cfg.envelopeTtlSeconds && since <= at && at + ttl * 1000 <= deadline
    requires EnvelopeKeysFree(w.book, eid, nonce)
    ensures var reply := Issue(cfg, w, id, cfg.audience, key, ttl, actorId, role, at, eid, nonce);
      && reply.result == Ok(eid) && WorldInv(cfg, reply.world) && reply.world.signer == w.signer
      && id in reply.world.book && Enveloped(reply.world.book[id], eid, ttl, at)
  {
    hide WorldInv, Green, StrictClaims, View, EnvelopeKeysFree, SliceInv, EnvelopeApprovals, KeyRegistered,
         IssuedClaims, NewEnvelope, IssuedSlice, Enveloped, CanAppend;
    var s := w.book[id];
    SignerKnown(cfg, w);
    IssueOpKeeps(cfg, w, id, cfg.audience, key, ttl, actorId, role, at, eid, nonce);
    GreenInWorld(cfg, w, id);
    SliceIn(cfg, w, id);
    MaySignNow(cfg, w.registry, id, s, signoffs, deadline, since, ttl, at);
    SigningIsStrict(cfg, w.registry, id, s, eid, nonce, ttl, at);
    IssuedEnveloped(cfg, s, ttl, at, eid, nonce, key, w.signer.value, actorId);
    var w' := Issue(cfg, w, id, cfg.audience, key, ttl, actorId, role, at, eid, nonce).world;
    EnvelopedHere(w'.book[id], eid, ttl, at);
    ViewSucceeds(cfg, w', id, eid);
  }

  lemma {:induction false} SignerKnown(cfg: Config, w: World)
    requires WorldInv(cfg, w) && w.signer.Some?
    ensures ConfigOk(cfg) && AudienceOk(cfg.audience) && w.signer.value.keyId in w.registry.rows
  {
    hide SliceInv;
  }

  lemma {:induction false} ConsumeConsumes(cfg: Config, w: World, id: Id, eid: Id, ttl: int, since: int,
                                           actorId: string, role: Role, key: string, at: int)
    requires WorldInv(cfg, w) && w.signer.Some? && id in w.book && Enveloped(w.book[id], eid, ttl, since)
    requires IdentifierOk(actorId) && IdentifierOk(key) && (role.Consumer? || role.Admin?)
    requires since <= at < Seconds(since + ttl * 1000) * 1000
    ensures var compact := w.book[id].envelopes[eid].compact;
      var reply := Consume(cfg, w, compact, cfg.audience, actorId, role, key, at, at, at);
      && reply.result == Ok(eid) && id in reply.world.book && eid in reply.world.book[id].envelopes
      && reply.world.book[id].envelopes[eid].consumedAt == Some(at)
      && reply.world.book[id].envelopes[eid].consumedBy == Some(actorId)
  {
    hide WorldInv, Verify, View, ConsumePayload, OwnerOf, ConfigOk, IdentifierOk;
    SignerKnown(cfg, w);
    var compact := w.book[id].envelopes[eid].compact;
    StoredIsSound(cfg, w, id, eid);
    StoredVerifies(cfg, w, id, eid, at);
    StoredIsOwned(cfg, w, id, eid);
    ConsumeOpKeeps(cfg, w, compact, cfg.audience, actorId, role, key, at, at, at);
    var w' := Consume(cfg, w, compact, cfg.audience, actorId, role, key, at, at, at).world;
    ViewSucceeds(cfg, w', id, eid);
  }

  // Within the limit of one transaction and of the day, to a payee the lists let through.
  ghost predicate Allows(cfg: Config, book: Book, p: Proposal, policyAt: int) {
    var today := Counted(book, cfg.tenantId, p.agentId, policyAt - policyAt % 86_400_000, None);
    && p.amountMinor <= cfg.policy.perTransactionLimitMinor
    && AmountSum(book, today) + p.amountMinor <= cfg.policy.dailyAgentLimitMinor
    && LowerCase(p.payeeReference) !in cfg.policy.blockedPayees
    && (cfg.policy.allowedPayees.Some? ==> LowerCase(p.payeeReference) in cfg.policy.allowedPayees.value)
  }

  lemma {:induction false} AllowedDecision(cfg: Config, book: Book, p: Proposal, policyAt: int)
    requires Allows(cfg, book, p, policyAt)
    ensures var d := DecidePolicy(cfg, DailyExposure(book, cfg.tenantId, p.agentId, policyAt), p);
      d.allowed && d.requiredApprovals == if p.amountMinor > cfg.policy.dualApprovalThresholdMinor then 2 else 1
  {
    hide DailyExposure, AmountSum, LowerCase, Counted;
    DailyExposureIs(book, cfg.tenantId, p.agentId, policyAt);
    DecisionFollows(cfg, DailyExposure(book, cfg.tenantId, p.agentId, policyAt), p);
  }

  lemma {:induction false} AllByLast(signoffs: seq<Signoff>, agent: string, since: int)
    requires InOrder(signoffs, agent, since)
    ensures forall i :: 0 <= i < |signoffs| ==> signoffs[i].at <= Moment(signoffs, since)
    ensures since <= Moment(signoffs, since)
  {
    hide IdentifierOk, IsHumanRole;
  }

  // In any reachable store, an allowed proposal, of one approval or of two, that as many
  // different people as it needs accept in time, under fresh row ids, becomes an envelope
  // that a consumer in time consumes: every call on the way succeeds.
  lemma {:induction false} AllowedProposalCanBeConsumed(cfg: Config, w: World, p: Proposal, id: Uuid, policyAt: int,
                                                        createdAt: int, signoffs: seq<Signoff>, issuer: string,
                                                        issuerRole: Role, ttl: int, issuedAt: int, eid: Uuid,
                                                        nonce: Nonce, consumer: string, key: string, consumedAt: int)
    requires Reachable(cfg, w) && w.signer.Some? && ProposalOk(cfg, p) && id !in w.book
    requires forall x :: x in w.book ==>
      w.book[x].intent.agentId != p.agentId || w.book[x].intent.idempotencyKey != p.idempotencyKey
    requires Allows(cfg, w.book, p, policyAt)
    requires |signoffs| == (if p.amountMinor > cfg.policy.dualApprovalThresholdMinor then 2 else 1)
    requires InOrder(signoffs, p.agentId, createdAt)
    requires IdentifierOk(issuer) && IsHumanRole(issuerRole) && IdentifierOk(consumer) && IdentifierOk(key)
    requires 1 <= ttl <= cfg.envelopeTtlSeconds
    requires Last(signoffs).at <= issuedAt <= consumedAt < Seconds(issuedAt + ttl * 1000) * 1000
    requires issuedAt + ttl * 1000 <= createdAt + p.expiresInSeconds * 1000
    requires EnvelopeKeysFree(w.book, eid, nonce)
    ensures var created := Create(cfg, w, p, id, policyAt, createdAt);
      var approved := Signed(cfg, created.world, id, signoffs);
      var issued := Issue(cfg, approved, id, cfg.audience, key, ttl, issuer, issuerRole, issuedAt, eid, nonce);
      && created.result == Ok(id) && AllAccepted(cfg, created.world, id, signoffs) && issued.result == Ok(eid)
      && id in issued.world.book && eid in issued.world.book[id].envelopes
      && var compact := issued.world.book[id].envelopes[eid].compact;
      var consumed :=
        Consume(cfg, issued.world, compact, cfg.audience, consumer, Consumer, key, consumedAt, consumedAt, consumedAt);
      && consumed.result == Ok(eid)
      && id in consumed.world.book && eid in consumed.world.book[id].envelopes
      && consumed.world.book[id].envelopes[eid].consumedBy == Some(consumer)
  {
    hide Reachable, WorldInv, Create, Review, Signed, Issue, Consume, FindByKey, DecidePolicy, DailyExposure,
         ProposalOk, InOrder, AllAccepted, Waiting, Approved, Enveloped, EnvelopeKeysFree, Allows;
    ReachableInv(cfg, w);
    AllowedDecision(cfg, w.book, p, policyAt);
    assert FindByKey(cfg, w.book, p.agentId, p.idempotencyKey).None? by { NoSuchKey(cfg, w.book, p); }
    var deadline, last := createdAt + p.expiresInSeconds * 1000, Last(signoffs).at;
    CreateWaits(cfg, w, p, id, policyAt, createdAt);
    var w1 := Create(cfg, w, p, id, policyAt, createdAt).world;
    SignoffsAccepted(cfg, w1, id, p.agentId, |signoffs|, signoffs, deadline, createdAt);
    AllByLast(signoffs, p.agentId, createdAt);
    var w2 := Signed(cfg, w1, id, signoffs);
    CreateKeepsKeys(cfg, w, p, id, policyAt, createdAt, eid, nonce);
    SignedKeepsKeys(cfg, w1, id, signoffs, eid, nonce);
    IssueEnvelops(cfg, w2, id, signoffs, deadline, last, key, ttl, issuer, issuerRole, issuedAt, eid, nonce);
    var w3 := Issue(cfg, w2, id, cfg.audience, key, ttl, issuer, issuerRole, issuedAt, eid, nonce).world;
    EnvelopedHere(w3.book[id], eid, ttl, issuedAt);
    ConsumeConsumes(cfg, w3, id, eid, ttl, issuedAt, consumer, Consumer, key, consumedAt);
  }

  lemma {:induction false} NoSuchKey(cfg: Config, book: Book, p: Proposal)
    requires forall x :: x in book ==>
      book[x].intent.agentId != p.agentId || book[x].intent.idempotencyKey != p.idempotencyKey
    ensures FindByKey(cfg, book, p.agentId, p.idempotencyKey).None?
  {
  }

  lemma {:induction false} EnvelopedHere(s: Slice, eid: Id, ttl: int, at: int)
    requires Enveloped(s, eid, ttl, at)
    ensures eid in s.envelopes
  {
  }

  // Creating and approving store no envelope, so drawn ids stay free.
  lemma {:induction false} CreateKeepsKeys(cfg: Config, w: World, p: Proposal, id: Uuid, policyAt: int, createdAt: int,
                                           eid: Uuid, nonce: Nonce)
    requires EnvelopeKeysFree(w.book, eid, nonce)
    ensures EnvelopeKeysFree(Create(cfg, w, p, id, policyAt, createdAt).world.book, eid, nonce)
  {
    hide FindByKey, DailyExposure, DecidePolicy, ProposalOk, NewIntent, InitialPayload;
  }

  lemma {:induction false} ReviewKeepsKeys(cfg: Config, w: World, id: Id, actorId: string, role: Role,
                                           decision: Decision, at: int, eid: Uuid, nonce: Nonce)
    requires EnvelopeKeysFree(w.book, eid, nonce)
    ensures EnvelopeKeysFree(Review(cfg, w, id, actorId, role, decision, at).world.book, eid, nonce)
  {
    hide Green, ReviewPayload, HasReviewed, NewApproval, OutcomeOf;
  }

  lemma {:induction false} SignedKeepsKeys(cfg: Config, w: World, id: Id, signoffs: seq<Signoff>, eid: Uuid,
                                           nonce: Nonce)
    requires EnvelopeKeysFree(w.book, eid, nonce)
    ensures EnvelopeKeysFree(Signed(cfg, w, id, signoffs).book, eid, nonce)
  {
    hide Review, EnvelopeKeysFree;
    if signoffs != [] {
      var init, x := signoffs[..|signoffs| - 1], Last(signoffs);
      SignedKeepsKeys(cfg, w, id, init, eid, nonce);
      ReviewKeepsKeys(cfg, Signed(cfg, w, id, init), id, x.actorId, x.role, Approve, x.at, eid, nonce);
    }
  }
}
