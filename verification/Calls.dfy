// The public calls: each sweeps the overdue intents, runs its own transaction, and reads
// the intent back (which sweeps again). A call that raises stops where it raised.
module Calls {
  import opened Basics
  import opened Evidence
  import opened Integrity
  import opened Invariant
  import opened Operations
  import opened Store
  import opened Runs

  ghost function GetIntent(cfg: Config, w: World, id: Id, now: int): Reply<Id> {
    var swept := Sweep(w, now);
    if swept.result.Err? then Reply(swept.world, Err(swept.result.error))
    else if id !in swept.world.book then Reply(swept.world, Err(NotFound))
    else if !Green(cfg, swept.world.registry, swept.world.book[id]) then Reply(swept.world, Err(IntegrityFailure))
    else Reply(swept.world, Ok(id))
  }

  ghost function ThenGet(cfg: Config, reply: Reply<Id>, now: int): Reply<Id> {
    if reply.result.Err? then reply else GetIntent(cfg, reply.world, reply.result.value, now)
  }

  ghost function CreateCall(cfg: Config, w: World, p: Proposal, id: Uuid, sweepAt: int, policyAt: int, createdAt: int,
                            viewAt: int): Reply<Id> {
    var swept := Sweep(w, sweepAt);
    if swept.result.Err? then Reply(swept.world, Err(swept.result.error))
    else ThenGet(cfg, Create(cfg, swept.world, p, id, policyAt, createdAt), viewAt)
  }

  ghost function ReviewCall(cfg: Config, w: World, id: Id, actorId: string, role: Role, decision: Decision,
                            sweepAt: int, at: int, viewAt: int): Reply<Id> {
    var swept := Sweep(w, sweepAt);
    if swept.result.Err? then Reply(swept.world, Err(swept.result.error))
    else ThenGet(cfg, Review(cfg, swept.world, id, actorId, role, decision, at), viewAt)
  }

  ghost function CancelCall(cfg: Config, w: World, id: Id, actorId: string, role: Role, sweepAt: int, at: int,
                            viewAt: int): Reply<Id> {
    var swept := Sweep(w, sweepAt);
    if swept.result.Err? then Reply(swept.world, Err(swept.result.error))
    else ThenGet(cfg, Cancel(cfg, swept.world, id, actorId, role, at), viewAt)
  }

  ghost function ObserveCall(cfg: Config, w: World, id: Id, oid: Uuid, status: ObservationStatus,
                             providerReference: Option<string>, actorId: string, at: int, viewAt: int): Reply<Id> {
    ThenGet(cfg, Observe(cfg, w, id, oid, status, providerReference, actorId, at), viewAt)
  }

  // ----- every call is a short run, so whatever holds of runs holds of calls -----

  ghost predicate ReachedByRun(cfg: Config, w: World, w': World) {
    exists ops :: w' == Run(cfg, w, ops)
  }

  lemma {:induction false} NoStep(cfg: Config, w: World)
    ensures ReachedByRun(cfg, w, w)
  {
    assert Run(cfg, w, []) == w;
  }

  lemma {:induction false} OneStepMore(cfg: Config, w: World, mid: World, op: Op)
    requires ReachedByRun(cfg, w, mid)
    ensures ReachedByRun(cfg, w, Apply(cfg, mid, op))
  {
    hide Apply;
    var ops :| mid == Run(cfg, w, ops);
    assert (ops + [op])[..|ops|] == ops;
    assert Run(cfg, w, ops + [op]) == Apply(cfg, mid, op);
  }

  lemma {:induction false} GetIsRun(cfg: Config, w: World, mid: World, id: Id, now: int)
    requires ReachedByRun(cfg, w, mid) && mid.signer.Some?
    ensures ReachedByRun(cfg, w, GetIntent(cfg, mid, id, now).world)
  {
    hide Green, ReachedByRun, SweepBlocked;
    OneStepMore(cfg, w, mid, SweepOp(now));
  }

  // A call that starts with a sweep and goes on with one operation.
  lemma {:induction false} SweptThen(cfg: Config, w: World, sweepAt: int, op: Op)
    requires w.signer.Some?
    ensures ReachedByRun(cfg, w, Sweep(w, sweepAt).world)
    ensures ReachedByRun(cfg, w, Apply(cfg, Sweep(w, sweepAt).world, op))
  {
    NoStep(cfg, w);
    OneStepMore(cfg, w, w, SweepOp(sweepAt));
    OneStepMore(cfg, w, Sweep(w, sweepAt).world, op);
  }

  lemma {:induction false} CreateKeepsSigner(cfg: Config, w: World, p: Proposal, id: Uuid, policyAt: int,
                                             createdAt: int)
    ensures Create(cfg, w, p, id, policyAt, createdAt).world.signer == w.signer
  {
    hide ProposalOk, FindByKey, DecidePolicy, NewSlice;
  }

  lemma {:induction false} DecisionKeepsSigner(cfg: Config, w: World, id: Id, actorId: string, role: Role,
                                               decision: Decision, at: int)
    ensures Review(cfg, w, id, actorId, role, decision, at).world.signer == w.signer
    ensures Cancel(cfg, w, id, actorId, role, at).world.signer == w.signer
  {
    hide Green, IdentifierOk, CanAppend, ExpiredSlice, ReviewedSlice, CancelledSlice;
  }

  lemma {:induction false} CreateCallIsRun(cfg: Config, w: World, p: Proposal, id: Uuid, sweepAt: int, policyAt: int,
                                           createdAt: int, viewAt: int)
    requires w.signer.Some?
    ensures ReachedByRun(cfg, w, CreateCall(cfg, w, p, id, sweepAt, policyAt, createdAt, viewAt).world)
  {
    hide ReachedByRun, SweepBlocked, SweptBook, GetIntent, ProposalOk, FindByKey, DecidePolicy, NewSlice, Create;
    SweptThen(cfg, w, sweepAt, CreateOp(p, id, policyAt, createdAt));
    var swept := Sweep(w, sweepAt);
    var reply := Create(cfg, swept.world, p, id, policyAt, createdAt);
    CreateKeepsSigner(cfg, swept.world, p, id, policyAt, createdAt);
    if swept.result.Ok? && reply.result.Ok? { GetIsRun(cfg, w, reply.world, reply.result.value, viewAt); }
  }

  lemma {:induction false} ReviewCallIsRun(cfg: Config, w: World, id: Id, actorId: string, role: Role,
                                           decision: Decision, sweepAt: int, at: int, viewAt: int)
    requires w.signer.Some?
    ensures ReachedByRun(cfg, w, ReviewCall(cfg, w, id, actorId, role, decision, sweepAt, at, viewAt).world)
  {
    hide ReachedByRun, SweepBlocked, SweptBook, GetIntent, Review;
    SweptThen(cfg, w, sweepAt, ReviewOp(id, actorId, role, decision, at));
    var swept := Sweep(w, sweepAt);
    var reply := Review(cfg, swept.world, id, actorId, role, decision, at);
    DecisionKeepsSigner(cfg, swept.world, id, actorId, role, decision, at);
    if swept.result.Ok? && reply.result.Ok? { GetIsRun(cfg, w, reply.world, reply.result.value, viewAt); }
  }

  lemma {:induction false} CancelCallIsRun(cfg: Config, w: World, id: Id, actorId: string, role: Role, sweepAt: int,
                                           at: int, viewAt: int)
    requires w.signer.Some?
    ensures ReachedByRun(cfg, w, CancelCall(cfg, w, id, actorId, role, sweepAt, at, viewAt).world)
  {
    hide ReachedByRun, SweepBlocked, SweptBook, GetIntent, Cancel;
    SweptThen(cfg, w, sweepAt, CancelOp(id, actorId, role, at));
    var swept := Sweep(w, sweepAt);
    var reply := Cancel(cfg, swept.world, id, actorId, role, at);
    DecisionKeepsSigner(cfg, swept.world, id, actorId, role, Approve, at);
    if swept.result.Ok? && reply.result.Ok? { GetIsRun(cfg, w, reply.world, reply.result.value, viewAt); }
  }

  lemma {:induction false} ObserveCallIsRun(cfg: Config, w: World, id: Id, oid: Uuid, status: ObservationStatus,
                                            providerReference: Option<string>, actorId: string, at: int, viewAt: int)
    requires w.signer.Some?
    ensures ReachedByRun(cfg, w, ObserveCall(cfg, w, id, oid, status, providerReference, actorId, at, viewAt).world)
  {
    hide Green, ReachedByRun, SweepBlocked, GetIntent;
    NoStep(cfg, w);
    OneStepMore(cfg, w, w, ObserveOp(id, oid, status, providerReference, actorId, at));
    var reply := Observe(cfg, w, id, oid, status, providerReference, actorId, at);
    if reply.result.Ok? { GetIsRun(cfg, w, reply.world, reply.result.value, viewAt); }
  }

  // Reading an intent back never fails for lack of integrity: whatever a call did, the
  // view it ends with passes verifyIntegrity.
  lemma {:induction false} GetSucceeds(cfg: Config, w: World, id: Id, now: int)
    requires Reachable(cfg, w) && w.signer.Some? && id in w.book
    ensures GetIntent(cfg, w, id, now).result == Ok(id)
  {
    hide Reachable, SliceInv, Green;
    ReachableInv(cfg, w);
    SweepNeverBlocked(cfg, w, now);
    SweepKeeps(cfg, w, now);
    var swept := Sweep(w, now).world;
    assert SliceInv(cfg, swept.registry, id, swept.book[id]);
    SliceIsGreen(cfg, swept.registry, id, swept.book[id]);
  }

  lemma {:induction false} SliceIsGreen(cfg: Config, reg: Registry, id: Id, s: Slice)
    requires SliceInv(cfg, reg, id, s)
    ensures Green(cfg, reg, s)
  {
    hide Green;
  }

  // What every step keeps, every call keeps.
  lemma {:induction false} CallKeeps(cfg: Config, w: World, w': World)
    requires WorldInv(cfg, w) && ReachedByRun(cfg, w, w')
    ensures WorldInv(cfg, w')
  {
    hide WorldInv;
    var ops :| w' == Run(cfg, w, ops);
    RunKeeps(cfg, w, ops);
  }

  // ----- what a call answers -----

  // On tables of any content: a proposal whose evidence does not hold up is never returned, unless it
  // is overdue and so changed before it is read.
  lemma {:induction false} TamperedIsNotReturned(cfg: Config, w: World, id: Id, now: int)
    requires id in w.book && !Green(cfg, w.registry, w.book[id])
    requires w.book[id].intent.status != AwaitingApproval || now < w.book[id].intent.expiresAt
    ensures var r := GetIntent(cfg, w, id, now);
      && r.world.book.Keys == w.book.Keys && r.world.book[id] == w.book[id]
      && (r.result == Err(IntegrityFailure) || (r == Reply(w, Err(ClockRollbackDetected)) && SweepBlocked(w.book, now)))
  {
    hide Green;
  }

  // In a reachable store the sweeps around a call never stop it and the read-back never fails: the
  // call answers what its own operation answers on the swept store, and an accepted one sweeps again.
  lemma {:induction false} ReadBackAnswers(cfg: Config, reply: Reply<Id>, viewAt: int)
    requires WorldInv(cfg, reply.world) && reply.world.signer.Some?
    requires reply.result.Ok? ==> reply.result.value in reply.world.book
    ensures ThenGet(cfg, reply, viewAt)
         == if reply.result.Ok? then Reply(Sweep(reply.world, viewAt).world, reply.result) else reply
  {
    hide WorldInv, Green, SliceInv, SweepBlocked, SweptBook;
    if reply.result.Ok? {
      SweepNeverBlocked(cfg, reply.world, viewAt);
      SweepKeeps(cfg, reply.world, viewAt);
      var swept := Sweep(reply.world, viewAt).world;
      SweptKeys(reply.world, viewAt);
      SliceHolds(cfg, swept, reply.result.value);
      SliceIsGreen(cfg, swept.registry, reply.result.value, swept.book[reply.result.value]);
    }
  }

  lemma {:induction false} SweptKeys(w: World, now: int)
    ensures Sweep(w, now).world.book.Keys == w.book.Keys && Sweep(w, now).world.signer == w.signer
  {
    hide SweepBlocked, ExpiredSlice;
  }

  lemma {:induction false} SliceHolds(cfg: Config, w: World, id: Id)
    requires WorldInv(cfg, w) && id in w.book
    ensures SliceInv(cfg, w.registry, id, w.book[id])
  {
    hide SliceInv;
  }

  lemma {:induction false} CreateCallAnswers(cfg: Config, w: World, p: Proposal, id: Uuid, sweepAt: int, policyAt: int,
                                             createdAt: int, viewAt: int)
    requires Reachable(cfg, w) && w.signer.Some?
    ensures var r := Create(cfg, Sweep(w, sweepAt).world, p, id, policyAt, createdAt);
      CreateCall(cfg, w, p, id, sweepAt, policyAt, createdAt, viewAt)
      == if r.result.Ok? then Reply(Sweep(r.world, viewAt).world, r.result) else r
  {
    hide Reachable, WorldInv, ThenGet, Create, SweepBlocked, SweptBook;
    ReachableInv(cfg, w);
    SweepNeverBlocked(cfg, w, sweepAt);
    SweepKeeps(cfg, w, sweepAt);
    SweptKeys(w, sweepAt);
    var swept := Sweep(w, sweepAt).world;
    var r := Create(cfg, swept, p, id, policyAt, createdAt);
    CreateKeeps(cfg, swept, p, id, policyAt, createdAt);
    CreateKeepsSigner(cfg, swept, p, id, policyAt, createdAt);
    assert r.result.Ok? ==> r.result.value in r.world.book by { CreateNames(cfg, swept, p, id, policyAt, createdAt); }
    ReadBackAnswers(cfg, r, viewAt);
  }

  lemma {:induction false} CreateNames(cfg: Config, w: World, p: Proposal, id: Uuid, policyAt: int, createdAt: int)
    ensures var r := Create(cfg, w, p, id, policyAt, createdAt); r.result.Ok? ==> r.result.value in r.world.book
  {
    hide ProposalOk, DecidePolicy, NewSlice;
  }

  lemma {:induction false} DecisionNames(cfg: Config, w: World, id: Id, actorId: string, role: Role,
                                         decision: Decision, at: int)
    ensures var r := Review(cfg, w, id, actorId, role, decision, at);
      r.result.Ok? ==> r.result.value == id && id in r.world.book
    ensures var r := Cancel(cfg, w, id, actorId, role, at); r.result.Ok? ==> r.result.value == id && id in r.world.book
  {
    hide Green, IdentifierOk, CanAppend, HasReviewed, ExpiredSlice, ReviewedSlice, CancelledSlice;
  }

  lemma {:induction false} DecisionCallAnswers(cfg: Config, w: World, id: Id, actorId: string, role: Role,
                                               decision: Decision, sweepAt: int, at: int, viewAt: int)
    requires Reachable(cfg, w) && w.signer.Some?
    ensures var r := Review(cfg, Sweep(w, sweepAt).world, id, actorId, role, decision, at);
      ReviewCall(cfg, w, id, actorId, role, decision, sweepAt, at, viewAt)
      == if r.result.Ok? then Reply(Sweep(r.world, viewAt).world, r.result) else r
    ensures var r := Cancel(cfg, Sweep(w, sweepAt).world, id, actorId, role, at);
      CancelCall(cfg, w, id, actorId, role, sweepAt, at, viewAt)
      == if r.result.Ok? then Reply(Sweep(r.world, viewAt).world, r.result) else r
  {
    hide Reachable, WorldInv, ThenGet, Review, Cancel, SweepBlocked, SweptBook;
    ReachableInv(cfg, w);
    SweepNeverBlocked(cfg, w, sweepAt);
    SweepKeeps(cfg, w, sweepAt);
    SweptKeys(w, sweepAt);
    var swept := Sweep(w, sweepAt).world;
    ReviewOpKeeps(cfg, swept, id, actorId, role, decision, at);
    CancelOpKeeps(cfg, swept, id, actorId, role, at);
    DecisionKeepsSigner(cfg, swept, id, actorId, role, decision, at);
    DecisionNames(cfg, swept, id, actorId, role, decision, at);
    ReadBackAnswers(cfg, Review(cfg, swept, id, actorId, role, decision, at), viewAt);
    ReadBackAnswers(cfg, Cancel(cfg, swept, id, actorId, role, at), viewAt);
  }

  lemma {:induction false} ObserveCallAnswers(cfg: Config, w: World, id: Id, oid: Uuid, status: ObservationStatus,
                                              providerReference: Option<string>, actorId: string, at: int, viewAt: int)
    requires Reachable(cfg, w) && w.signer.Some?
    ensures var r := Observe(cfg, w, id, oid, status, providerReference, actorId, at);
      ObserveCall(cfg, w, id, oid, status, providerReference, actorId, at, viewAt)
      == if r.result.Ok? then Reply(Sweep(r.world, viewAt).world, r.result) else r
  {
    hide Reachable, WorldInv, ThenGet, Green, CanAppend, Frozen, ObservedSlice, ObservationOk, Sweep;
    ReachableInv(cfg, w);
    ObserveOpKeeps(cfg, w, id, oid, status, providerReference, actorId, at);
    ReadBackAnswers(cfg, Observe(cfg, w, id, oid, status, providerReference, actorId, at), viewAt);
  }
}
