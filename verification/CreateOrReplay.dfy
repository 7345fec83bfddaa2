// Concurrent createOrReplay calls on PostgreSQL: each attempt takes a snapshot, locks its
// agent's policy subject, looks its idempotency key up, prepares and inserts, and commits or
// aborts, in any interleaving with each other and with decisions that move rows on.
// Assumed of the database: snapshots do not move, the subject lock lasts to the end of its
// transaction, and a commit fails (retryably) if the agent's rows it read have changed since.
module CreateOrReplay {
  import opened Basics
  import opened Evidence
  import opened Exposure

  type TxId = nat

  datatype Row = Row(id: Id, tenant: string, agent: string, key: string, fingerprint: string,
                     amount: int, allowed: bool, status: Status, createdAt: int)

  datatype InitialEvent = InitialEvent(intent: Id, eventType: EventType, actor: string, occurredAt: int,
                                       currentExposure: int, projectedExposure: int)

  datatype Prepared = Prepared(row: Row, event: InitialEvent)

  // day is policyDayStartsAt in days since the epoch; prepare sees the exposure, or throws.
  datatype Request = Request(tenant: string, agent: string, key: string, fingerprint: string, day: int,
                             prepare: int -> Option<Prepared>)

  datatype Phase = Opened | Locked | Inserted(prepared: Prepared) | Replaying(existing: Row)

  datatype Tx = Tx(request: Request, snapshot: seq<Row>, phase: Phase)

  datatype Outcome = Created(row: Row) | Replayed(row: Row) | Conflict | InvalidPrepared

  datatype Answer = Answer(request: Request, outcome: Outcome)

  // events[i] is the initial event of rows[i].
  datatype Db = Db(rows: seq<Row>, events: seq<InitialEvent>, active: map<TxId, Tx>, answers: seq<Answer>)

  datatype Action =
    | Begin(t: TxId, request: Request)
    | LockSubject(t: TxId)
    | Decide(t: TxId)
    | Commit(t: TxId)
    | Abort(t: TxId)
    | Move(index: nat, status: Status)   // an approval, cancellation or expiry elsewhere

  // ----- what a transaction reads -----

  predicate OfAgent(r: Row, tenant: string, agent: string) { r.tenant == tenant && r.agent == agent }

  function AgentRows(rows: seq<Row>, tenant: string, agent: string): seq<Row> {
    if rows == [] then []
    else
      var last := rows[|rows| - 1];
      AgentRows(rows[..|rows| - 1], tenant, agent) + (if OfAgent(last, tenant, agent) then [last] else [])
  }

  function RowShare(r: Row, tenant: string, agent: string, day: int): int {
    if OfAgent(r, tenant, agent) && day * DAY_MS <= r.createdAt < (day + 1) * DAY_MS && r.allowed && IsLive(r.status)
    then r.amount else 0
  }

  // COALESCE(SUM(amount_minor), 0)
  function DaySum(rows: seq<Row>, tenant: string, agent: string, day: int): int {
    if rows == [] then 0
    else DaySum(rows[..|rows| - 1], tenant, agent, day) + RowShare(rows[|rows| - 1], tenant, agent, day)
  }

  // The amounts of the rows at some places, added up.
  ghost function AmountsAt(rows: seq<Row>, places: set<nat>): int
    requires forall i :: i in places ==> i < |rows|
  {
    if places == {} then 0
    else
      var i :| i in places;
      rows[i].amount + AmountsAt(rows, places - {i})
  }

  // Where the agent's allowed rows of one UTC day stand that are waiting or authorized.
  function Counted(rows: seq<Row>, tenant: string, agent: string, day: int): set<nat> {
    set i: nat | i < |rows|
      && rows[i].tenant == tenant && rows[i].agent == agent
      && day * 86_400_000 <= rows[i].createdAt < (day + 1) * 86_400_000
      && rows[i].allowed && (rows[i].status == AwaitingApproval || rows[i].status == AuthorizedNoDispatch)
  }

  ghost function DayExposure(rows: seq<Row>, tenant: string, agent: string, day: int): int {
    AmountsAt(rows, Counted(rows, tenant, agent, day))
  }

  predicate UsesKey(r: Row, q: Request) { OfAgent(r, q.tenant, q.agent) && r.key == q.key }

  function FindKey(rows: seq<Row>, q: Request): (found: Option<Row>)
    ensures found.Some? ==> found.value in rows && UsesKey(found.value, q)
    ensures found.None? ==> forall i :: 0 <= i < |rows| ==> !UsesKey(rows[i], q)
  {
    if rows == [] then None
    else if UsesKey(rows[|rows| - 1], q) then Some(rows[|rows| - 1])
    else FindKey(rows[..|rows| - 1], q)
  }

  // assertPreparedProposal
  predicate PreparedOk(q: Request, p: Prepared, exposure: int) {
    && OfAgent(p.row, q.tenant, q.agent) && p.row.key == q.key && p.row.fingerprint == q.fingerprint
    && (p.row.status == AwaitingApproval || p.row.status == PolicyDenied)
    && (p.row.allowed <==> p.row.status == AwaitingApproval)
    && 1 <= p.row.amount <= MAX_SAFE_INTEGER
    && q.day * DAY_MS <= p.row.createdAt < (q.day + 1) * DAY_MS
    && p.event.intent == p.row.id
    && p.event.eventType == (if p.row.allowed then ProposalCreated else ProposalPolicyDenied)
    && p.event.actor == q.agent && p.event.occurredAt == p.row.createdAt
    && p.event.currentExposure == exposure
    && p.event.projectedExposure == exposure + p.row.amount <= MAX_SAFE_INTEGER
  }

  predicate IdTaken(rows: seq<Row>, id: Id) { exists i :: 0 <= i < |rows| && rows[i].id == id }

  predicate IdPending(db: Db, t: TxId, id: Id) {
    exists u :: u in db.active && u != t && db.active[u].phase.Inserted? && db.active[u].phase.prepared.row.id == id
  }

  predicate SubjectHeld(db: Db, t: TxId, q: Request) {
    exists u :: u in db.active && u != t && !db.active[u].phase.Opened?
                && db.active[u].request.tenant == q.tenant && db.active[u].request.agent == q.agent
  }

  // ----- steps -----

  function Ends(db: Db, t: TxId): Db { db.(active := db.active - {t}) }

  function Answers(db: Db, t: TxId, q: Request, outcome: Outcome): Db {
    Ends(db, t).(answers := db.answers + [Answer(q, outcome)])
  }

  function DecideStep(db: Db, t: TxId): Db
    requires t in db.active
  {
    var tx := db.active[t];
    var q := tx.request;
    var existing := FindKey(tx.snapshot, q);
    if existing.Some? then
      if existing.value.fingerprint != q.fingerprint then Answers(db, t, q, Conflict)
      else db.(active := db.active[t := tx.(phase := Replaying(existing.value))])
    else
      var exposure := DaySum(tx.snapshot, q.tenant, q.agent, q.day);
      var prepared := q.prepare(exposure);
      if prepared.None? || !PreparedOk(q, prepared.value, exposure) then Answers(db, t, q, InvalidPrepared)
      else if IdTaken(db.rows, prepared.value.row.id) then Ends(db, t)
      else if IdPending(db, t, prepared.value.row.id) then db
      else db.(active := db.active[t := tx.(phase := Inserted(prepared.value))])
  }

  function CommitStep(db: Db, t: TxId): Db
    requires t in db.active
  {
    var tx := db.active[t];
    var q := tx.request;
    match tx.phase
    case Replaying(existing) => Answers(db, t, q, Replayed(existing))
    case Inserted(p) =>
      if AgentRows(tx.snapshot, q.tenant, q.agent) != AgentRows(db.rows, q.tenant, q.agent) then Ends(db, t)
      else Answers(db, t, q, Created(p.row)).(rows := db.rows + [p.row], events := db.events + [p.event])
    case _ => db
  }

  // A row leaves AWAITING_APPROVAL once; AUTHORIZED_NO_DISPATCH and the rest are final.
  predicate MayMove(r: Row, status: Status) {
    r.status == AwaitingApproval && status != PolicyDenied && !status.OtherStatus?
  }

  function Step(db: Db, action: Action): Db {
    match action
    case Begin(t, q) => if t in db.active then db else db.(active := db.active[t := Tx(q, db.rows, Opened)])
    case LockSubject(t) =>
      if t !in db.active || !db.active[t].phase.Opened? || SubjectHeld(db, t, db.active[t].request) then db
      else db.(active := db.active[t := db.active[t].(phase := Locked)])
    case Decide(t) => if t !in db.active || !db.active[t].phase.Locked? then db else DecideStep(db, t)
    case Commit(t) => if t !in db.active then db else CommitStep(db, t)
    case Abort(t) => Ends(db, t)
    case Move(i, status) =>
      if i < |db.rows| && MayMove(db.rows[i], status)
      then db.(rows := db.rows[i := db.rows[i].(status := status)]) else db
  }

  function Run(db: Db, actions: seq<Action>): Db {
    if actions == [] then db else Step(Run(db, actions[..|actions| - 1]), actions[|actions| - 1])
  }

  const EMPTY := Db([], [], map[], [])

  // ----- the invariant -----

  ghost predicate KeysUnique(rows: seq<Row>) {
    forall i, j :: 0 <= i < j < |rows| ==>
      !(OfAgent(rows[i], rows[j].tenant, rows[j].agent) && rows[i].key == rows[j].key) && rows[i].id != rows[j].id
  }

  // The same row but for its status.
  predicate SameRow(a: Row, b: Row) { a == b.(status := a.status) }

  // Rows stay, in order; only their status moves.
  ghost predicate Grown(before: seq<Row>, after: seq<Row>) {
    |before| <= |after| && forall i :: 0 <= i < |before| ==> SameRow(before[i], after[i])
  }

  ghost predicate Holds(rows: seq<Row>, r: Row) { exists i :: 0 <= i < |rows| && SameRow(r, rows[i]) }

  // A row's initial event: who proposed it, when, what the policy said, and what it added.
  predicate TellsOf(e: InitialEvent, r: Row) {
    && e.intent == r.id && e.actor == r.agent && e.occurredAt == r.createdAt
    && e.eventType == (if r.allowed then ProposalCreated else ProposalPolicyDenied)
    && e.projectedExposure == e.currentExposure + r.amount
  }

  ghost predicate EventsMatch(rows: seq<Row>, events: seq<InitialEvent>) {
    |events| == |rows| && forall i :: 0 <= i < |rows| ==> TellsOf(events[i], rows[i])
  }

  ghost predicate TxInv(db: Db, tx: Tx) {
    && Grown(tx.snapshot, db.rows)
    && (tx.phase.Inserted? ==>
          && FindKey(tx.snapshot, tx.request).None?
          && PreparedOk(tx.request, tx.phase.prepared,
               DaySum(tx.snapshot, tx.request.tenant, tx.request.agent, tx.request.day))
          && tx.request.prepare(DaySum(tx.snapshot, tx.request.tenant, tx.request.agent, tx.request.day))
               == Some(tx.phase.prepared)
          && !IdTaken(db.rows, tx.phase.prepared.row.id))
    && (tx.phase.Replaying? ==>
          UsesKey(tx.phase.existing, tx.request) && tx.phase.existing.fingerprint == tx.request.fingerprint
          && Holds(db.rows, tx.phase.existing))
  }

  // What an answer says is so in the rows.
  ghost predicate Truthful(rows: seq<Row>, a: Answer) {
    match a.outcome
    case Created(r) => UsesKey(r, a.request) && r.fingerprint == a.request.fingerprint && Holds(rows, r)
    case Replayed(r) => UsesKey(r, a.request) && r.fingerprint == a.request.fingerprint && Holds(rows, r)
    case Conflict => exists r :: Holds(rows, r) && UsesKey(r, a.request) && r.fingerprint != a.request.fingerprint
    case InvalidPrepared => true
  }

  ghost predicate PendingDistinct(db: Db) {
    forall t, u ::
      t in db.active && u in db.active && t != u
      && db.active[t].phase.Inserted? && db.active[u].phase.Inserted? ==>
      db.active[t].phase.prepared.row.id != db.active[u].phase.prepared.row.id
  }

  // At most one transaction of an agent is past the lock.
  ghost predicate OnePastLock(db: Db) {
    forall t, u ::
      t in db.active && u in db.active && t != u
      && !db.active[t].phase.Opened? && !db.active[u].phase.Opened? ==>
      !(db.active[t].request.tenant == db.active[u].request.tenant
        && db.active[t].request.agent == db.active[u].request.agent)
  }

  ghost predicate Inv(db: Db) {
    && KeysUnique(db.rows) && EventsMatch(db.rows, db.events)
    && (forall t :: t in db.active ==> TxInv(db, db.active[t]))
    && PendingDistinct(db) && OnePastLock(db)
    && (forall k :: 0 <= k < |db.answers| ==> Truthful(db.rows, db.answers[k]))
  }

  // ----- growth -----

  lemma {:induction false} GrownOn(a: seq<Row>, b: seq<Row>, c: seq<Row>)
    requires Grown(a, b) && Grown(b, c)
    ensures Grown(a, c)
  {
    forall i | 0 <= i < |a| ensures SameRow(a[i], c[i]) { assert SameRow(a[i], b[i]) && SameRow(b[i], c[i]); }
  }

  lemma {:induction false} HoldsOn(rows: seq<Row>, rows': seq<Row>, r: Row)
    requires Grown(rows, rows') && Holds(rows, r)
    ensures Holds(rows', r)
  {
    var i :| 0 <= i < |rows| && SameRow(r, rows[i]);
    assert SameRow(rows[i], rows'[i]) && SameRow(r, rows'[i]);
  }

  lemma {:induction false} TruthfulOn(rows: seq<Row>, rows': seq<Row>, a: Answer)
    requires Grown(rows, rows') && Truthful(rows, a)
    ensures Truthful(rows', a)
  {
    match a.outcome
    case Created(r) => HoldsOn(rows, rows', r);
    case Replayed(r) => HoldsOn(rows, rows', r);
    case Conflict =>
      var r :| Holds(rows, r) && UsesKey(r, a.request) && r.fingerprint != a.request.fingerprint;
      HoldsOn(rows, rows', r);
    case InvalidPrepared =>
  }

  // Everything another transaction and every past answer rely on survives, if ids stay clear.
  lemma {:induction false} TxOn(db: Db, db': Db, tx: Tx)
    requires TxInv(db, tx) && Grown(db.rows, db'.rows)
    requires tx.phase.Inserted? ==> !IdTaken(db'.rows, tx.phase.prepared.row.id)
    ensures TxInv(db', tx)
  {
    hide DaySum, PreparedOk, FindKey;
    GrownOn(tx.snapshot, db.rows, db'.rows);
    if tx.phase.Replaying? { HoldsOn(db.rows, db'.rows, tx.phase.existing); }
  }

  lemma {:induction false} OneTxChanged(db: Db, db': Db, t: TxId, tx': Tx)
    requires Inv(db) && t in db.active && db' == db.(active := db.active[t := tx'])
    requires TxInv(db', tx') && tx'.request == db.active[t].request
    requires !db.active[t].phase.Opened? || !SubjectHeld(db, t, tx'.request)
    requires tx'.phase.Inserted? ==> !IdPending(db, t, tx'.phase.prepared.row.id)
    ensures Inv(db')
  {
    hide DaySum, PreparedOk, FindKey, Truthful;
    forall u | u in db'.active ensures TxInv(db', db'.active[u]) {
      if u != t { assert TxInv(db, db.active[u]); }
    }
  }

  lemma {:induction false} TxEnds(db: Db, t: TxId)
    requires Inv(db)
    ensures Inv(Ends(db, t))
  {
    hide DaySum, PreparedOk, FindKey, Truthful;
    forall u | u in Ends(db, t).active ensures TxInv(Ends(db, t), db.active[u]) { assert TxInv(db, db.active[u]); }
  }

  lemma {:induction false} AnswerKeeps(db: Db, t: TxId, q: Request, outcome: Outcome)
    requires Inv(db) && Truthful(db.rows, Answer(q, outcome))
    ensures Inv(Answers(db, t, q, outcome))
  {
    hide DaySum, PreparedOk, FindKey, Truthful;
    TxEnds(db, t);
    forall u | u in Answers(db, t, q, outcome).active
      ensures TxInv(Answers(db, t, q, outcome), db.active[u])
    {
      assert TxInv(db, db.active[u]);
    }
  }

  lemma {:induction false} GrownSelf(rows: seq<Row>)
    ensures Grown(rows, rows)
  {
  }

  lemma {:induction false} SnapshotHeld(snapshot: seq<Row>, rows: seq<Row>, r: Row)
    requires Grown(snapshot, rows) && r in snapshot
    ensures Holds(rows, r)
  {
    var i :| 0 <= i < |snapshot| && snapshot[i] == r;
    assert SameRow(snapshot[i], rows[i]);
  }

  lemma {:induction false} AgentRowsIn(rows: seq<Row>, tenant: string, agent: string, r: Row)
    ensures r in AgentRows(rows, tenant, agent) <==> r in rows && OfAgent(r, tenant, agent)
  {
    if rows != [] {
      var n := |rows| - 1;
      AgentRowsIn(rows[..n], tenant, agent, r);
      assert rows == rows[..n] + [rows[n]];
    }
  }

  // ----- every step keeps the invariant -----

  lemma {:induction false} BeginKeeps(db: Db, t: TxId, q: Request)
    requires Inv(db) && t !in db.active
    ensures Inv(Step(db, Begin(t, q)))
  {
    hide DaySum, PreparedOk, FindKey, Truthful;
    GrownSelf(db.rows);
    var db' := Step(db, Begin(t, q));
    forall u | u in db'.active ensures TxInv(db', db'.active[u]) {
      if u != t { assert TxInv(db, db.active[u]); }
    }
  }

  lemma {:induction false} LockKeeps(db: Db, t: TxId)
    requires Inv(db) && t in db.active && db.active[t].phase.Opened? && !SubjectHeld(db, t, db.active[t].request)
    ensures Inv(Step(db, LockSubject(t)))
  {
    var tx' := db.active[t].(phase := Locked);
    assert TxInv(db, db.active[t]);
    hide DaySum, PreparedOk, FindKey, Truthful, SubjectHeld, IdPending;
    OneTxChanged(db, Step(db, LockSubject(t)), t, tx');
  }

  lemma {:induction false} DecideKeeps(db: Db, t: TxId)
    requires Inv(db) && t in db.active && db.active[t].phase.Locked?
    ensures Inv(DecideStep(db, t))
  {
    var tx := db.active[t];
    var q := tx.request;
    assert TxInv(db, tx);
    var existing := FindKey(tx.snapshot, q);
    hide Inv, DaySum, PreparedOk, FindKey, IdPending;
    if existing.Some? {
      SnapshotHeld(tx.snapshot, db.rows, existing.value);
      if existing.value.fingerprint != q.fingerprint {
        AnswerKeeps(db, t, q, Conflict);
      } else {
        OneTxChanged(db, DecideStep(db, t), t, tx.(phase := Replaying(existing.value)));
      }
    } else {
      var exposure := DaySum(tx.snapshot, q.tenant, q.agent, q.day);
      var prepared := q.prepare(exposure);
      if prepared.None? || !PreparedOk(q, prepared.value, exposure) {
        AnswerKeeps(db, t, q, InvalidPrepared);
      } else if IdTaken(db.rows, prepared.value.row.id) {
        TxEnds(db, t);
      } else if !IdPending(db, t, prepared.value.row.id) {
        OneTxChanged(db, DecideStep(db, t), t, tx.(phase := Inserted(prepared.value)));
      }
    }
  }

  // With the agent's rows unchanged since the snapshot, the key is still free at commit.
  lemma {:induction false} KeyStillFree(snapshot: seq<Row>, rows: seq<Row>, q: Request)
    requires FindKey(snapshot, q).None? && AgentRows(snapshot, q.tenant, q.agent) == AgentRows(rows, q.tenant, q.agent)
    ensures forall i :: 0 <= i < |rows| ==> !UsesKey(rows[i], q)
  {
    forall i | 0 <= i < |rows| && OfAgent(rows[i], q.tenant, q.agent) ensures !UsesKey(rows[i], q) {
      AgentRowsIn(rows, q.tenant, q.agent, rows[i]);
      AgentRowsIn(snapshot, q.tenant, q.agent, rows[i]);
      var k :| 0 <= k < |snapshot| && snapshot[k] == rows[i];
      assert !UsesKey(snapshot[k], q);
    }
  }

  lemma {:induction false} AppendGrows(rows: seq<Row>, r: Row)
    ensures Grown(rows, rows + [r])
  {
  }

  lemma {:induction false} KeysStayUnique(rows: seq<Row>, r: Row)
    requires KeysUnique(rows) && !IdTaken(rows, r.id)
    requires forall i :: 0 <= i < |rows| ==> !(OfAgent(rows[i], r.tenant, r.agent) && rows[i].key == r.key)
    ensures KeysUnique(rows + [r])
  {
  }

  // A creation commits: its row and its event join, and its answer is true.
  lemma {:induction false} CreationKeeps(db: Db, t: TxId)
    requires Inv(db) && t in db.active && db.active[t].phase.Inserted?
    requires AgentRows(db.active[t].snapshot, db.active[t].request.tenant, db.active[t].request.agent)
          == AgentRows(db.rows, db.active[t].request.tenant, db.active[t].request.agent)
    ensures Inv(CommitStep(db, t))
  {
    var tx := db.active[t];
    var q, p := tx.request, tx.phase.prepared;
    var db' := CommitStep(db, t);
    assert TxInv(db, tx);
    KeyStillFree(tx.snapshot, db.rows, q);
    hide FindKey, DaySum, AgentRows;
    KeysStayUnique(db.rows, p.row);
    AppendGrows(db.rows, p.row);
    assert SameRow(p.row, db'.rows[|db.rows|]);
    forall u | u in db'.active ensures TxInv(db', db'.active[u]) {
      assert TxInv(db, db.active[u]);
      hide PreparedOk;
      if db.active[u].phase.Inserted? { StillClear(db, t, u); }
      TxOn(db, db', db.active[u]);
    }
    forall k | 0 <= k < |db'.answers| ensures Truthful(db'.rows, db'.answers[k]) {
      if k < |db.answers| { TruthfulOn(db.rows, db'.rows, db.answers[k]); }
    }
    hide PreparedOk, TxInv, Truthful, KeysUnique;
  }

  lemma {:induction false} StillClear(db: Db, t: TxId, u: TxId)
    requires Inv(db) && t in db.active && u in db.active && t != u
    requires db.active[t].phase.Inserted? && db.active[u].phase.Inserted?
    ensures !IdTaken(db.rows + [db.active[t].phase.prepared.row], db.active[u].phase.prepared.row.id)
  {
    hide PreparedOk, DaySum, FindKey, Truthful;
    assert TxInv(db, db.active[u]);
  }

  lemma {:induction false} CommitKeeps(db: Db, t: TxId)
    requires Inv(db) && t in db.active
    ensures Inv(CommitStep(db, t))
  {
    var tx := db.active[t];
    match tx.phase
    case Replaying(existing) =>
      assert TxInv(db, tx);
      hide Inv, Holds;
      AnswerKeeps(db, t, tx.request, Replayed(existing));
    case Inserted(p) =>
      hide Inv, AgentRows;
      if AgentRows(tx.snapshot, tx.request.tenant, tx.request.agent)
         != AgentRows(db.rows, tx.request.tenant, tx.request.agent) {
        TxEnds(db, t);
      } else {
        CreationKeeps(db, t);
      }
    case _ =>
  }

  lemma {:induction false} MoveKeeps(db: Db, i: nat, status: Status)
    requires Inv(db) && i < |db.rows| && MayMove(db.rows[i], status)
    ensures Inv(Step(db, Move(i, status)))
  {
    var db' := Step(db, Move(i, status));
    hide PreparedOk, DaySum, FindKey, Truthful;
    assert Grown(db.rows, db'.rows);
    forall u | u in db'.active ensures TxInv(db', db'.active[u]) {
      assert TxInv(db, db.active[u]);
      TxOn(db, db', db.active[u]);
    }
    forall k | 0 <= k < |db'.answers|
      ensures Truthful(db'.rows, db'.answers[k])
    {
      TruthfulOn(db.rows, db'.rows, db.answers[k]);
    }
  }

  lemma {:induction false} StepKeeps(db: Db, action: Action)
    requires Inv(db)
    ensures Inv(Step(db, action))
  {
    hide Inv, DecideStep, CommitStep;
    match action
    case Begin(t, q) => if t !in db.active { BeginKeeps(db, t, q); }
    case LockSubject(t) =>
      if t in db.active && db.active[t].phase.Opened? && !SubjectHeld(db, t, db.active[t].request) { LockKeeps(db, t); }
    case Decide(t) => if t in db.active && db.active[t].phase.Locked? { DecideKeeps(db, t); }
    case Commit(t) => if t in db.active { CommitKeeps(db, t); }
    case Abort(t) => TxEnds(db, t);
    case Move(i, status) => if i < |db.rows| && MayMove(db.rows[i], status) { MoveKeeps(db, i, status); }
  }

  lemma {:induction false} RunKeeps(actions: seq<Action>)
    ensures Inv(Run(EMPTY, actions))
  {
    hide Step;
    if actions != [] {
      hide Inv;
      RunKeeps(actions[..|actions| - 1]);
      StepKeeps(Run(EMPTY, actions[..|actions| - 1]), actions[|actions| - 1]);
    }
  }

  // ----- one intent per key, one event per intent -----

  // In every reachable state: rows have distinct ids and idempotency keys, each with its one
  // initial event; every success answered for a key names the one row that has it, with the
  // caller's fingerprint; every conflict answered is against a row with another fingerprint.
  lemma {:induction false} OneIntentPerKey(actions: seq<Action>, j: nat, k: nat)
    requires j < |Run(EMPTY, actions).answers| && k < |Run(EMPTY, actions).answers|
    requires SameCall(Run(EMPTY, actions).answers[j].request, Run(EMPTY, actions).answers[k].request)
    ensures var db := Run(EMPTY, actions);
      && KeysUnique(db.rows) && EventsMatch(db.rows, db.events)
      && (Succeeded(db.answers[j]) && Succeeded(db.answers[k]) ==>
            && SameRow(AnsweredRow(db.answers[j]), AnsweredRow(db.answers[k]))
            && AnsweredRow(db.answers[j]).fingerprint == db.answers[j].request.fingerprint
            && db.answers[j].request.fingerprint == db.answers[k].request.fingerprint)
      && (Succeeded(db.answers[j]) && db.answers[k].outcome.Conflict? ==>
            db.answers[j].request.fingerprint != db.answers[k].request.fingerprint)
  {
    RunKeeps(actions);
    var db := Run(EMPTY, actions);
    hide Run, Step, PreparedOk, DaySum, FindKey;
    var a, b := db.answers[j], db.answers[k];
    assert Truthful(db.rows, a) && Truthful(db.rows, b);
    hide Inv;
    if Succeeded(a) {
      assert UsesKey(AnsweredRow(a), a.request);
      var m :| 0 <= m < |db.rows| && SameRow(AnsweredRow(a), db.rows[m]);
      assert UsesKey(db.rows[m], a.request);
      if Succeeded(b) {
        var n :| 0 <= n < |db.rows| && SameRow(AnsweredRow(b), db.rows[n]);
        assert UsesKey(AnsweredRow(b), b.request);
        assert UsesKey(db.rows[n], a.request);
        OneRow(db.rows, m, n, a.request);
      } else if b.outcome.Conflict? {
        var r :| Holds(db.rows, r) && UsesKey(r, b.request) && r.fingerprint != b.request.fingerprint;
        hide Truthful;
        var n :| 0 <= n < |db.rows| && SameRow(r, db.rows[n]);
        assert UsesKey(db.rows[n], b.request);
        OneRow(db.rows, m, n, a.request);
      }
    }
  }

  predicate SameCall(p: Request, q: Request) { p.tenant == q.tenant && p.agent == q.agent && p.key == q.key }

  predicate Succeeded(a: Answer) { a.outcome.Created? || a.outcome.Replayed? }

  function AnsweredRow(a: Answer): Row
    requires Succeeded(a)
  {
    a.outcome.row
  }

  lemma {:induction false} OneRow(rows: seq<Row>, m: int, n: int, q: Request)
    requires KeysUnique(rows) && 0 <= m < |rows| && 0 <= n < |rows| && UsesKey(rows[m], q) && UsesKey(rows[n], q)
    ensures m == n
  {
  }

  // ----- an undisturbed call gets its answer -----

  function WholeCall(t: TxId, q: Request): seq<Action> { [Begin(t, q), LockSubject(t), Decide(t), Commit(t)] }

  lemma {:induction false} RunOfFour(db: Db, a: Action, b: Action, c: Action, d: Action)
    ensures Run(db, [a, b, c, d]) == Step(Step(Step(Step(db, a), b), c), d)
  {
    hide Step;
    assert [a, b, c, d][..3] == [a, b, c] && [a, b, c][..2] == [a, b] && [a, b][..1] == [a] && [a][..0] == [];
    assert Run(db, [a]) == Step(Run(db, []), a);
    assert Run(db, [a, b]) == Step(Run(db, [a]), b);
    assert Run(db, [a, b, c]) == Step(Run(db, [a, b]), c);
  }

  // Under a free subject lock a call reaches its decision on the rows as they stand.
  lemma {:induction false} ReachesDecision(db: Db, t: TxId, q: Request)
    requires t !in db.active && !SubjectHeld(db, t, q)
    ensures var locked := db.(active := db.active[t := Tx(q, db.rows, Locked)]);
      && Run(db, WholeCall(t, q)) == Step(DecideStep(locked, t), Commit(t))
      && Ends(locked, t) == db
      && forall outcome :: Answers(locked, t, q, outcome) == db.(answers := db.answers + [Answer(q, outcome)])
  {
    hide DecideStep, CommitStep, Run, FindKey;
    var begun := Step(db, Begin(t, q));
    assert !SubjectHeld(begun, t, q);
    RunOfFour(db, Begin(t, q), LockSubject(t), Decide(t), Commit(t));
    var locked := db.(active := db.active[t := Tx(q, db.rows, Locked)]);
    assert Step(begun, LockSubject(t)) == locked;
    assert locked.active - {t} == db.active;
  }

  // With the key taken: the one row that has it comes back if the fingerprints agree, and a
  // conflict does if not; rows, events and other transactions are as before.
  lemma {:induction false} TakenKeyAnswers(db: Db, t: TxId, q: Request, i: nat)
    requires Inv(db) && t !in db.active && !SubjectHeld(db, t, q) && i < |db.rows| && UsesKey(db.rows[i], q)
    ensures var outcome := if db.rows[i].fingerprint == q.fingerprint then Replayed(db.rows[i]) else Conflict;
      Run(db, WholeCall(t, q)) == db.(answers := db.answers + [Answer(q, outcome)])
  {
    hide Run, Truthful, TxInv, DaySum, PreparedOk, AgentRows;
    ReachesDecision(db, t, q);
    var found := FindKey(db.rows, q);
    var k :| 0 <= k < |db.rows| && db.rows[k] == found.value;
    OneRow(db.rows, i, k, q);
    hide FindKey, SubjectHeld;
    var locked := db.(active := db.active[t := Tx(q, db.rows, Locked)]);
    if found.value.fingerprint == q.fingerprint {
      var replaying := locked.(active := locked.active[t := Tx(q, db.rows, Replaying(found.value))]);
      assert DecideStep(locked, t) == replaying;
      assert replaying.active - {t} == locked.active - {t};
    }
  }

  lemma {:induction false} PreparedMeans(q: Request, p: Prepared, exposure: int)
    ensures PreparedOk(q, p, exposure) <==>
      && p.row.tenant == q.tenant && p.row.agent == q.agent && p.row.key == q.key && p.row.fingerprint == q.fingerprint
      && p.row.status == (if p.row.allowed then AwaitingApproval else PolicyDenied)
      && 1 <= p.row.amount <= 9_007_199_254_740_991
      && q.day * 86_400_000 <= p.row.createdAt < (q.day + 1) * 86_400_000
      && TellsOf(p.event, p.row) && p.event.currentExposure == exposure
      && p.event.projectedExposure <= 9_007_199_254_740_991
  {
  }

  // With the key free: prepare is shown the agent's exact exposure of the day; a proposal that
  // passes the check under an unused id joins the rows with its event, and nothing else changes.
  // An id that is taken fails the attempt; one another transaction is inserting makes it wait.
  lemma {:induction false} FreeKeyCreates(db: Db, t: TxId, q: Request)
    requires t !in db.active && !SubjectHeld(db, t, q)
    requires forall i :: 0 <= i < |db.rows| ==> !UsesKey(db.rows[i], q)
    ensures var exposure := DayExposure(db.rows, q.tenant, q.agent, q.day);
      var p := q.prepare(exposure);
      var fits := p.Some? && p.value.row.tenant == q.tenant && p.value.row.agent == q.agent
        && p.value.row.key == q.key && p.value.row.fingerprint == q.fingerprint
        && p.value.row.status == (if p.value.row.allowed then AwaitingApproval else PolicyDenied)
        && 1 <= p.value.row.amount <= 9_007_199_254_740_991
        && q.day * 86_400_000 <= p.value.row.createdAt < (q.day + 1) * 86_400_000
        && TellsOf(p.value.event, p.value.row)
        && p.value.event.currentExposure == exposure
        && p.value.event.projectedExposure <= 9_007_199_254_740_991;
      var after := Run(db, WholeCall(t, q));
      if !fits
      then after == db.(answers := db.answers + [Answer(q, InvalidPrepared)])
      else if IdTaken(db.rows, p.value.row.id) then after == db
      else if IdPending(db, t, p.value.row.id) then after == db.(active := db.active[t := Tx(q, db.rows, Locked)])
      else after == db.(rows := db.rows + [p.value.row], events := db.events + [p.value.event],
                        answers := db.answers + [Answer(q, Created(p.value.row))])
  {
    hide Run, DaySum, DayExposure, PreparedOk, AgentRows, IdTaken, TellsOf;
    DaySumIs(db.rows, q.tenant, q.agent, q.day);
    if q.prepare(DayExposure(db.rows, q.tenant, q.agent, q.day)).Some? {
      PreparedMeans(q, q.prepare(DayExposure(db.rows, q.tenant, q.agent, q.day)).value,
                    DayExposure(db.rows, q.tenant, q.agent, q.day));
    }
    ReachesDecision(db, t, q);
    assert FindKey(db.rows, q).None?;
    hide FindKey, SubjectHeld;
    var locked := db.(active := db.active[t := Tx(q, db.rows, Locked)]);
    var exposure := DaySum(db.rows, q.tenant, q.agent, q.day);
    var p := q.prepare(exposure);
    if p.Some? && PreparedOk(q, p.value, exposure) && !IdTaken(db.rows, p.value.row.id) {
      assert IdPending(locked, t, p.value.row.id) == IdPending(db, t, p.value.row.id);
      if IdPending(db, t, p.value.row.id) {
        assert DecideStep(locked, t) == locked;
        return;
      }
      var inserted := locked.(active := locked.active[t := Tx(q, db.rows, Inserted(p.value))]);
      assert DecideStep(locked, t) == inserted;
      assert inserted.active - {t} == db.active;
    }
  }

  // ----- exact exposures and the daily limit -----

  lemma {:induction false} AmountsSplit(rows: seq<Row>, places: set<nat>, x: nat)
    requires x in places && forall i :: i in places ==> i < |rows|
    ensures AmountsAt(rows, places) == rows[x].amount + AmountsAt(rows, places - {x})
  {
    var i :| i in places && AmountsAt(rows, places) == rows[i].amount + AmountsAt(rows, places - {i});
    if i != x {
      AmountsSplit(rows, places - {i}, x);
      assert places - {i} - {x} == places - {x} - {i};
      AmountsSplit(rows, places - {x}, i);
    }
  }

  lemma {:induction false} AmountsBefore(rows: seq<Row>, n: nat, places: set<nat>)
    requires n <= |rows| && forall i :: i in places ==> i < n
    ensures AmountsAt(rows, places) == AmountsAt(rows[..n], places)
  {
    if places != {} {
      var i :| i in places;
      AmountsSplit(rows, places, i);
      AmountsSplit(rows[..n], places, i);
      AmountsBefore(rows, n, places - {i});
    }
  }

  // The sum the query takes row by row is the day's exposure.
  lemma {:induction false} DaySumIs(rows: seq<Row>, tenant: string, agent: string, day: int)
    ensures DaySum(rows, tenant, agent, day) == DayExposure(rows, tenant, agent, day)
  {
    if rows != [] {
      var n := |rows| - 1;
      DaySumIs(rows[..n], tenant, agent, day);
      var before := Counted(rows[..n], tenant, agent, day);
      var all := Counted(rows, tenant, agent, day);
      AmountsBefore(rows, n, before);
      if n in all {
        AmountsSplit(rows, all, n);
        assert all - {n} == before;
      } else {
        assert all == before;
      }
    }
  }

  lemma {:induction false} SumOfAgent(rows: seq<Row>, tenant: string, agent: string, day: int)
    ensures DaySum(AgentRows(rows, tenant, agent), tenant, agent, day) == DaySum(rows, tenant, agent, day)
  {
    if rows != [] {
      var n := |rows| - 1;
      SumOfAgent(rows[..n], tenant, agent, day);
      var before := AgentRows(rows[..n], tenant, agent);
      assert (before + [rows[n]])[..|before|] == before;
      assert before + [] == before;
    }
  }

  // The exposure a committed creation recorded is the sum in the rows it joined, at that moment.
  lemma {:induction false} ExposureIsExact(db: Db, t: TxId)
    requires Inv(db) && t in db.active && CommitStep(db, t).rows != db.rows
    ensures db.active[t].phase.Inserted?
    ensures var q, p := db.active[t].request, db.active[t].phase.prepared;
      var exposure := DayExposure(db.rows, q.tenant, q.agent, q.day);
      && CommitStep(db, t).rows == db.rows + [p.row] && CommitStep(db, t).events == db.events + [p.event]
      && p.event.currentExposure == exposure && p.event.projectedExposure == exposure + p.row.amount
      && q.prepare(exposure) == Some(p)
  {
    var tx := db.active[t];
    var q := tx.request;
    assert TxInv(db, tx);
    SumOfAgent(tx.snapshot, q.tenant, q.agent, q.day);
    SumOfAgent(db.rows, q.tenant, q.agent, q.day);
    DaySumIs(db.rows, q.tenant, q.agent, q.day);
    hide DaySum, DayExposure, AgentRows, FindKey;
  }

  // A prepare that never allows more than the limit for the exposure it was shown.
  ghost predicate Respects(q: Request, limit: int) {
    forall exposure :: q.prepare(exposure).Some? && q.prepare(exposure).value.row.allowed ==>
      exposure + q.prepare(exposure).value.row.amount <= limit
  }

  ghost predicate LimitHeld(db: Db, limit: int) {
    && (forall t :: t in db.active ==> Respects(db.active[t].request, limit))
    && (forall i :: 0 <= i < |db.rows| ==> db.rows[i].amount >= 0)
    && (forall tenant, agent, day :: DaySum(db.rows, tenant, agent, day) <= limit)
  }

  lemma {:induction false} SumSnoc(rows: seq<Row>, r: Row, tenant: string, agent: string, day: int)
    ensures DaySum(rows + [r], tenant, agent, day) == DaySum(rows, tenant, agent, day) + RowShare(r, tenant, agent, day)
  {
    assert (rows + [r])[..|rows|] == rows;
  }

  // The transitions the database lets through: from waiting to any decision or to waiting still.
  lemma {:induction false} MovesAllowed(r: Row, status: Status)
    ensures MayMove(r, status) <==>
      r.status == AwaitingApproval
      && status in {AwaitingApproval, AuthorizedNoDispatch, Rejected, Cancelled, Expired}
  {
  }

  // Authorizing a row leaves every day's sum as it is; rejecting, cancelling or expiring it takes its
  // amount off its agent's day.
  lemma {:induction false} MoveChangesSum(rows: seq<Row>, i: nat, status: Status, tenant: string, agent: string,
                                          day: int)
    requires i < |rows| && MayMove(rows[i], status)
    ensures DaySum(rows, tenant, agent, day) - DaySum(rows[i := rows[i].(status := status)], tenant, agent, day)
      == if rows[i].tenant == tenant && rows[i].agent == agent && rows[i].createdAt / 86_400_000 == day
            && rows[i].allowed && status != AwaitingApproval && status != AuthorizedNoDispatch
         then rows[i].amount else 0
  {
    var n := |rows| - 1;
    var rows' := rows[i := rows[i].(status := status)];
    if i < n {
      MoveChangesSum(rows[..n], i, status, tenant, agent, day);
      assert rows'[..n] == rows[..n][i := rows[i].(status := status)];
    } else {
      assert rows'[..n] == rows[..n];
    }
  }

  lemma {:induction false} MoveNeverAdds(rows: seq<Row>, i: nat, status: Status, tenant: string, agent: string,
                                         day: int)
    requires i < |rows| && MayMove(rows[i], status) && rows[i].amount >= 0
    ensures DaySum(rows[i := rows[i].(status := status)], tenant, agent, day) <= DaySum(rows, tenant, agent, day)
  {
    MoveChangesSum(rows, i, status, tenant, agent, day);
    hide DaySum;
  }

  lemma {:induction false} DayIs(at: int, day: int)
    requires day * DAY_MS <= at < (day + 1) * DAY_MS
    ensures day == at / DAY_MS
  {
  }

  lemma {:induction false} CommitKeepsLimit(db: Db, t: TxId, limit: int)
    requires Inv(db) && LimitHeld(db, limit) && t in db.active && CommitStep(db, t).rows != db.rows
    ensures forall tenant, agent, day :: DaySum(CommitStep(db, t).rows, tenant, agent, day) <= limit
    ensures forall i :: 0 <= i < |CommitStep(db, t).rows| ==> CommitStep(db, t).rows[i].amount >= 0
  {
    ExposureIsExact(db, t);
    var q, p := db.active[t].request, db.active[t].phase.prepared;
    assert TxInv(db, db.active[t]);
    assert Respects(q, limit);
    DaySumIs(db.rows, q.tenant, q.agent, q.day);
    hide Inv, DaySum, DayExposure, AgentRows, FindKey;
    forall tenant, agent, day ensures DaySum(db.rows + [p.row], tenant, agent, day) <= limit {
      SumSnoc(db.rows, p.row, tenant, agent, day);
      if RowShare(p.row, tenant, agent, day) != 0 {
        DayIs(p.row.createdAt, day);
        DayIs(p.row.createdAt, q.day);
      }
    }
  }

  lemma {:induction false} StepKeepsLimit(db: Db, action: Action, limit: int)
    requires Inv(db) && LimitHeld(db, limit) && (action.Begin? ==> Respects(action.request, limit))
    ensures LimitHeld(Step(db, action), limit)
  {
    hide Inv, DaySum, Respects, FindKey, PreparedOk, AgentRows;
    match action
    case Commit(t) => if t in db.active && CommitStep(db, t).rows != db.rows { CommitKeepsLimit(db, t, limit); }
    case Move(i, status) =>
      if i < |db.rows| && MayMove(db.rows[i], status) {
        forall tenant, agent, day ensures DaySum(Step(db, action).rows, tenant, agent, day) <= limit {
          MoveNeverAdds(db.rows, i, status, tenant, agent, day);
        }
      }
    case _ =>
  }

  // If every prepare respects the limit, every agent's live total of every UTC day stays
  // within it, in every interleaving.
  lemma {:induction false} DailyLimitHolds(actions: seq<Action>, limit: int, tenant: string, agent: string, day: int)
    requires limit >= 0
    requires forall i :: 0 <= i < |actions| && actions[i].Begin? ==> Respects(actions[i].request, limit)
    ensures var rows := Run(EMPTY, actions).rows;
      var counted := set i: nat | i < |rows|
        && rows[i].tenant == tenant && rows[i].agent == agent
        && day * 86_400_000 <= rows[i].createdAt < (day + 1) * 86_400_000
        && rows[i].allowed && (rows[i].status == AwaitingApproval || rows[i].status == AuthorizedNoDispatch);
      AmountsAt(rows, counted) <= limit
  {
    hide Run, AmountsAt;
    LimitOverRun(actions, limit);
    var rows := Run(EMPTY, actions).rows;
    DaySumIs(rows, tenant, agent, day);
    var counted := set i: nat | i < |rows|
      && rows[i].tenant == tenant && rows[i].agent == agent
      && day * 86_400_000 <= rows[i].createdAt < (day + 1) * 86_400_000
      && rows[i].allowed && (rows[i].status == AwaitingApproval || rows[i].status == AuthorizedNoDispatch);
    assert counted == Counted(rows, tenant, agent, day);
  }

  lemma {:induction false} LimitOverRun(actions: seq<Action>, limit: int)
    requires limit >= 0
    requires forall i :: 0 <= i < |actions| && actions[i].Begin? ==> Respects(actions[i].request, limit)
    ensures LimitHeld(Run(EMPTY, actions), limit)
  {
    if actions != [] {
      var n := |actions| - 1;
      LimitOverRun(actions[..n], limit);
      RunKeeps(actions[..n]);
      hide LimitHeld, Inv, Step, Respects;
      StepKeepsLimit(Run(EMPTY, actions[..n]), actions[n], limit);
    }
  }
}
