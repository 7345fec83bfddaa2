// The daily limit: for every agent and UTC day, the allowed intents created that day that are
// still awaiting approval or authorized never add up to more than dailyAgentLimitMinor.
module DailyLimit {
  import opened Basics
  import opened Evidence
  import opened Exposure
  import opened Integrity
  import opened Operations
  import opened SigningKeys
  import opened Store
  import opened Runs
  import opened Evolution

  // createIntent reads the clock for the policy and again for created_at. All that is assumed
  // of a run is that the second reading of a call does not fall on an earlier UTC day.
  predicate ReadsForward(op: Op) {
    op.CreateOp? ==> DayStart(op.policyAt) <= DayStart(op.createdAt)
  }

  ghost predicate WithinLimit(cfg: Config, book: Book, agent: string, day: int) {
    DayTotal(book, cfg.tenantId, agent, day) <= cfg.policy.dailyAgentLimitMinor
  }

  ghost predicate LimitHeld(cfg: Config, book: Book) {
    && (forall id :: id in book ==> book[id].intent.amountMinor >= 0)
    && forall agent, day :: WithinLimit(cfg, book, agent, day)
  }

  // An intent that only moves along its lifecycle never adds to any sum.
  lemma {:induction false} ShareNeverGrows(s: Slice, s': Slice, tenant: string, agent: string, from: int,
                                           until: Option<int>)
    requires SliceEvolves(s, s') && s.intent.amountMinor >= 0
    ensures Share(s', tenant, agent, from, until) <= Share(s, tenant, agent, from, until)
  {
  }

  lemma {:induction false} EvolutionKeepsLimit(cfg: Config, w: World, w': World)
    requires LimitHeld(cfg, w.book) && WorldEvolves(w, w') && w'.book.Keys == w.book.Keys
    ensures LimitHeld(cfg, w'.book)
  {
    hide SliceEvolves;
    forall id | id in w'.book ensures w'.book[id].intent.amountMinor >= 0 { AmountKept(w.book[id], w'.book[id]); }
    forall agent, day ensures WithinLimit(cfg, w'.book, agent, day) {
      var from, until := day * DAY_MS, Some((day + 1) * DAY_MS);
      forall id | id in w'.book.Keys
        ensures Share(w'.book[id], cfg.tenantId, agent, from, until)
          <= Share(w.book[id], cfg.tenantId, agent, from, until)
      {
        ShareNeverGrows(w.book[id], w'.book[id], cfg.tenantId, agent, from, until);
      }
      SumMonotone(w'.book, w.book, w'.book.Keys, cfg.tenantId, agent, from, until, from, until);
      assert WithinLimit(cfg, w.book, agent, day);
    }
  }

  lemma {:induction false} AmountKept(s: Slice, s': Slice)
    requires SliceEvolves(s, s')
    ensures s'.intent.amountMinor == s.intent.amountMinor
  {
  }

  // A sum over one UTC day is at most the open-ended sum the policy check reads on that day or before.
  lemma {:induction false} DayWithinExposure(cfg: Config, book: Book, agent: string, day: int, at: int)
    requires (forall id :: id in book ==> book[id].intent.amountMinor >= 0) && DayStart(at) <= day * DAY_MS
    ensures DayTotal(book, cfg.tenantId, agent, day) <= DailyExposure(book, cfg.tenantId, agent, at)
  {
    SumMonotone(book, book, book.Keys, cfg.tenantId, agent, day * DAY_MS, Some((day + 1) * DAY_MS), DayStart(at), None);
  }

  // Adding one row adds its share.
  lemma {:induction false} SumWithRow(book: Book, id: Id, s: Slice, tenant: string, agent: string, from: int,
                                      until: Option<int>)
    requires id !in book
    ensures var after := book[id := s];
      LiveSum(after, after.Keys, tenant, agent, from, until)
      == LiveSum(book, book.Keys, tenant, agent, from, until) + Share(s, tenant, agent, from, until)
  {
    var after := book[id := s];
    SumSplit(after, after.Keys, id, tenant, agent, from, until);
    assert after.Keys - {id} == book.Keys;
    SumCongruent(after, book, book.Keys, tenant, agent, from, until);
  }

  // Every UTC day but the one an instant falls on misses it.
  lemma {:induction false} DayOf(at: int, day: int)
    ensures day * DAY_MS <= at < (day + 1) * DAY_MS <==> day == at / DAY_MS
  {
  }

  lemma {:induction false} CreationKeepsLimit(cfg: Config, book: Book, p: Proposal, id: Id, policyAt: int,
                                              createdAt: int)
    requires LimitHeld(cfg, book) && id !in book && p.amountMinor >= 1
    requires DayStart(policyAt) <= DayStart(createdAt)
    ensures var d := DecidePolicy(cfg, DailyExposure(book, cfg.tenantId, p.agentId, policyAt), p);
      LimitHeld(cfg, book[id := NewSlice(cfg, id, p, d, createdAt)])
  {
    var d := DecidePolicy(cfg, DailyExposure(book, cfg.tenantId, p.agentId, policyAt), p);
    var s := NewSlice(cfg, id, p, d, createdAt);
    var after := book[id := s];
    hide LiveSum;
    forall agent, day ensures WithinLimit(cfg, after, agent, day) {
      SumWithRow(book, id, s, cfg.tenantId, agent, day * DAY_MS, Some((day + 1) * DAY_MS));
      assert WithinLimit(cfg, book, agent, day);
      DayOf(createdAt, day);
      if day == createdAt / DAY_MS && agent == p.agentId && d.allowed {
        DayWithinExposure(cfg, book, agent, day, policyAt);
      }
    }
  }

  lemma {:induction false} CreateKeepsLimit(cfg: Config, w: World, p: Proposal, id: Uuid, policyAt: int, createdAt: int)
    requires LimitHeld(cfg, w.book) && DayStart(policyAt) <= DayStart(createdAt)
    ensures LimitHeld(cfg, Create(cfg, w, p, id, policyAt, createdAt).world.book)
  {
    hide LimitHeld, NewSlice;
    if Create(cfg, w, p, id, policyAt, createdAt).world != w {
      CreationKeepsLimit(cfg, w.book, p, id, policyAt, createdAt);
    }
  }

  lemma {:induction false} KeysKept(cfg: Config, w: World, op: Op)
    requires !op.CreateOp?
    ensures Apply(cfg, w, op).book.Keys == w.book.Keys
  {
    hide Green, Verify, StrictClaims;
  }

  // From any good state that is within the limit - the empty one, in particular.
  lemma {:induction false} LimitOverRuns(cfg: Config, w: World, ops: seq<Op>)
    requires WorldInv(cfg, w) && LimitHeld(cfg, w.book)
    requires forall i :: 0 <= i < |ops| ==> ReadsForward(ops[i])
    ensures LimitHeld(cfg, Run(cfg, w, ops).book)
  {
    hide LimitHeld, WorldEvolves, WorldInv;
    if ops != [] {
      var init, op := ops[..|ops| - 1], Last(ops);
      LimitOverRuns(cfg, w, init);
      RunKeeps(cfg, w, init);
      var before := Run(cfg, w, init);
      assert ReadsForward(op);
      if op.CreateOp? {
        CreateKeepsLimit(cfg, before, op.p, op.newId, op.policyAt, op.createdAt);
      } else {
        KeysKept(cfg, before, op);
        ApplyEvolves(cfg, before, op);
        EvolutionKeepsLimit(cfg, before, Apply(cfg, before, op));
      }
    }
  }

  // The amounts of the agent's allowed rows of one UTC day, waiting or authorized, add up to at
  // most the limit.
  lemma {:induction false} DailyLimitHolds(cfg: Config, ops: seq<Op>, agent: string, day: int)
    requires ConfigOk(cfg) && forall i :: 0 <= i < |ops| ==> ReadsForward(ops[i])
    ensures var book := Run(cfg, EMPTY_WORLD, ops).book;
      var counted := set id | id in book
        && book[id].intent.tenantId == cfg.tenantId && book[id].intent.agentId == agent
        && day * 86_400_000 <= book[id].intent.createdAt < (day + 1) * 86_400_000
        && book[id].intent.policyAllowed
        && (book[id].intent.status == AwaitingApproval || book[id].intent.status == AuthorizedNoDispatch);
      AmountSum(book, counted) <= cfg.policy.dailyAgentLimitMinor
  {
    hide Run, AmountSum;
    LimitOverRuns(cfg, EMPTY_WORLD, ops);
    hide LiveSum;
    var book := Run(cfg, EMPTY_WORLD, ops).book;
    assert WithinLimit(cfg, book, agent, day);
    DayTotalIs(book, cfg.tenantId, agent, day);
    var counted := set id | id in book
      && book[id].intent.tenantId == cfg.tenantId && book[id].intent.agentId == agent
      && day * 86_400_000 <= book[id].intent.createdAt < (day + 1) * 86_400_000
      && book[id].intent.policyAllowed
      && (book[id].intent.status == AwaitingApproval || book[id].intent.status == AuthorizedNoDispatch);
    assert counted == Counted(book, cfg.tenantId, agent, day * 86_400_000, Some((day + 1) * 86_400_000));
  }

  // Whatever a row does to the total when it is stored: its amount if it is the agent's, of that UTC
  // day, allowed, and waiting or authorized; nothing otherwise.
  lemma {:induction false} StoredRowAdds(book: Book, id: Id, s: Slice, tenant: string, agent: string, day: int)
    requires id !in book
    ensures var row := s.intent;
      DayTotal(book[id := s], tenant, agent, day) - DayTotal(book, tenant, agent, day)
      == if row.tenantId == tenant && row.agentId == agent && row.createdAt / 86_400_000 == day
            && row.policyAllowed && (row.status == AwaitingApproval || row.status == AuthorizedNoDispatch)
         then row.amountMinor else 0
  {
    hide LiveSum;
    SumWithRow(book, id, s, tenant, agent, day * DAY_MS, Some((day + 1) * DAY_MS));
    DayOf(s.intent.createdAt, day);
  }

  // An approval leaves every day's total as it is; a rejection, cancellation or expiry takes the
  // row's amount off its agent's day and touches no other total.
  lemma {:induction false} DecisionMovesTotal(book: Book, id: Id, status: Status, tenant: string, agent: string,
                                              day: int)
    requires id in book && book[id].intent.status == AwaitingApproval && book[id].intent.policyAllowed
    ensures var row := book[id].intent;
      var after := book[id := book[id].(intent := row.(status := status))];
      DayTotal(book, tenant, agent, day) - DayTotal(after, tenant, agent, day)
      == if row.tenantId == tenant && row.agentId == agent && row.createdAt / 86_400_000 == day
            && status != AwaitingApproval && status != AuthorizedNoDispatch
         then row.amountMinor else 0
  {
    hide LiveSum;
    var s := book[id].(intent := book[id].intent.(status := status));
    var others := book - {id};
    assert book == others[id := book[id]] && book[id := s] == others[id := s];
    StoredRowAdds(others, id, book[id], tenant, agent, day);
    StoredRowAdds(others, id, s, tenant, agent, day);
  }

  // ----- the assumption cannot be dropped -----

  const SMALL_POLICY := PolicyConfig("rules-v1", 100, 100, 100, 3600, {}, None)
  const SMALL := Config("tenant", "secret", SMALL_POLICY, "issuer", "audience", 60, false, LOCAL_DEMO_TRUST_DOMAIN)
  const ID1: Uuid := "00000000-0000-4000-8000-000000000001"
  const ID2: Uuid := "00000000-0000-4000-8000-000000000002"
  const BOOT := RestartOp(Start(SigningKey("key", 0), 0, false))

  function FullDay(key: string): Proposal { Proposal(key, "agent", None, 100, "payee-1", "purpose", 60) }

  // With nothing counted for the day it reads, a full-limit proposal is allowed.
  lemma {:induction false} FullDayAllowed(w: World, key: string, id: Uuid, policyAt: int, createdAt: int)
    requires w.signer.Some? && IdentifierOk(key) && id !in w.book
    requires forall other :: other in w.book ==> w.book[other].intent.idempotencyKey != key
    requires DailyExposure(w.book, SMALL.tenantId, "agent", policyAt) == 0
    ensures var s := Apply(SMALL, w, CreateOp(FullDay(key), id, policyAt, createdAt)).book[id];
      Apply(SMALL, w, CreateOp(FullDay(key), id, policyAt, createdAt)) == w.(book := w.book[id := s])
      && s.intent.policyAllowed && s.intent.status == AwaitingApproval && s.intent.amountMinor == 100
      && s.intent.tenantId == SMALL.tenantId && s.intent.agentId == "agent" && s.intent.createdAt == createdAt
      && s.intent.idempotencyKey == key
  {
    hide LiveSum;
    assert DenialReasons(SMALL.policy, 0, FullDay(key)) == [];
  }

  lemma {:induction false} BootState()
    ensures Apply(SMALL, EMPTY_WORLD, BOOT).signer.Some? && Apply(SMALL, EMPTY_WORLD, BOOT).book == map[]
  {
  }

  // Whenever the second reading falls on an earlier day, a run exceeds the limit: the policy
  // check counts the later day, where nothing was spent, and the row lands on the full one.
  lemma {:induction false} BackwardReadBreaksLimit(policyAt: int, createdAt: int)
    requires DayStart(createdAt) < DayStart(policyAt)
    ensures ConfigOk(SMALL)
    ensures var first := CreateOp(FullDay("first"), ID1, createdAt, createdAt);
      var second := CreateOp(FullDay("second"), ID2, policyAt, createdAt);
      var ops := [BOOT, first, second];
      DayTotal(Run(SMALL, EMPTY_WORLD, ops).book, SMALL.tenantId, "agent", createdAt / DAY_MS)
        == 2 * SMALL.policy.dailyAgentLimitMinor
  {
    hide Apply, Run, LiveSum, ConfigOk;
    assert ConfigOk(SMALL) by { SmallOk(); }
    var first := CreateOp(FullDay("first"), ID1, createdAt, createdAt);
    var second := CreateOp(FullDay("second"), ID2, policyAt, createdAt);
    RunOfThree(SMALL, EMPTY_WORLD, BOOT, first, second);
    BootState();
    var w0 := Apply(SMALL, EMPTY_WORLD, BOOT);
    NothingSpent(w0.book, createdAt, DayStart(policyAt), None);
    FullDayAllowed(w0, "first", ID1, createdAt, createdAt);
    var w1 := Apply(SMALL, w0, first);
    OnFullDay(w0.book, ID1, w1.book[ID1], policyAt, createdAt);
    FullDayAllowed(w1, "second", ID2, policyAt, createdAt);
    OnFullDay(w1.book, ID2, Apply(SMALL, w1, second).book[ID2], policyAt, createdAt);
    NothingSpent(w0.book, createdAt, createdAt / DAY_MS * DAY_MS, Some((createdAt / DAY_MS + 1) * DAY_MS));
  }

  // Such a row counts for its own day and not for the later one.
  lemma {:induction false} OnFullDay(book: Book, id: Id, s: Slice, policyAt: int, createdAt: int)
    requires id !in book && DayStart(createdAt) < DayStart(policyAt)
    requires s.intent.policyAllowed && s.intent.status == AwaitingApproval && s.intent.amountMinor == 100
    requires s.intent.tenantId == SMALL.tenantId && s.intent.agentId == "agent" && s.intent.createdAt == createdAt
    ensures DayTotal(book[id := s], SMALL.tenantId, "agent", createdAt / DAY_MS)
         == DayTotal(book, SMALL.tenantId, "agent", createdAt / DAY_MS) + 100
    ensures DailyExposure(book[id := s], SMALL.tenantId, "agent", policyAt)
      == DailyExposure(book, SMALL.tenantId, "agent", policyAt)
  {
    hide LiveSum;
    var day := createdAt / DAY_MS;
    SumWithRow(book, id, s, SMALL.tenantId, "agent", day * DAY_MS, Some((day + 1) * DAY_MS));
    SumWithRow(book, id, s, SMALL.tenantId, "agent", DayStart(policyAt), None);
  }

  lemma {:induction false} SmallOk()
    ensures ConfigOk(SMALL)
  {
  }

  lemma {:induction false} NothingSpent(book: Book, at: int, from: int, until: Option<int>)
    requires book == map[]
    ensures DailyExposure(book, SMALL.tenantId, "agent", at) == 0
    ensures LiveSum(book, book.Keys, SMALL.tenantId, "agent", from, until) == 0
    ensures forall policyAt :: DailyExposure(book, SMALL.tenantId, "agent", policyAt) == 0
  {
  }

  lemma {:induction false} RunOfThree(cfg: Config, w: World, a: Op, b: Op, c: Op)
    ensures Run(cfg, w, [a, b, c]) == Apply(cfg, Apply(cfg, Apply(cfg, w, a), b), c)
  {
    hide Apply;
    assert [a][..0] == [] && Run(cfg, w, [a]) == Apply(cfg, w, a);
    assert [a, b][..1] == [a] && Run(cfg, w, [a, b]) == Apply(cfg, Run(cfg, w, [a]), b);
    assert [a, b, c][..2] == [a, b];
  }
}
