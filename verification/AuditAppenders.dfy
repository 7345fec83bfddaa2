// Concurrent audit appenders on PostgreSQL. Transactions take a snapshot, lock the parent
// intent, read the tail they can see, insert, and commit or abort, in any interleaving.
// Assumed of the database: a snapshot does not move, a row lock lasts to the end of its
// transaction, and UNIQUE (intent_id, previous_hash) is checked against what is committed.
module AuditAppenders {
  type Id = string
  type TxId = nat

  datatype Hash = Genesis | EventHash(intent: Id, body: string, previous: Hash)

  datatype Row = Row(sequence: nat, intent: Id, body: string, previous: Hash, hash: Hash)

  // tails: the predecessor hash each append has read and not yet used.
  datatype Tx = Tx(snapshot: seq<Row>, locks: set<Id>, tails: map<Id, Hash>, pending: seq<Row>)

  datatype Db = Db(committed: seq<Row>, nextSequence: nat, active: map<TxId, Tx>)

  datatype Action =
    | Begin(t: TxId)                              // the transaction's snapshot
    | Lock(t: TxId, intent: Id)                   // SELECT ... FOR UPDATE
    | ReadTail(t: TxId, intent: Id)               // ORDER BY sequence DESC LIMIT 1
    | Insert(t: TxId, intent: Id, body: string)   // INSERT INTO audit_events
    | Commit(t: TxId)
    | Abort(t: TxId)

  function RowsFor(rows: seq<Row>, intent: Id): seq<Row> {
    if rows == [] then []
    else RowsFor(rows[..|rows| - 1], intent) + (if rows[|rows| - 1].intent == intent then [rows[|rows| - 1]] else [])
  }

  // The visible event with the highest sequence.
  function TailHash(rows: seq<Row>): Hash
    ensures TailHash(rows) == Genesis || exists i :: 0 <= i < |rows| && rows[i].hash == TailHash(rows)
  {
    if rows == [] then Genesis
    else
      var n := |rows| - 1;
      if forall i :: 0 <= i < n ==> rows[i].sequence < rows[n].sequence then rows[n].hash else TailHash(rows[..n])
  }

  predicate LockedByOther(db: Db, t: TxId, intent: Id) {
    exists u :: u in db.active && u != t && intent in db.active[u].locks
  }

  predicate Taken(rows: seq<Row>, intent: Id, previous: Hash) {
    exists i :: 0 <= i < |rows| && rows[i].intent == intent && rows[i].previous == previous
  }

  function NewRow(db: Db, intent: Id, body: string, previous: Hash): Row {
    Row(db.nextSequence, intent, body, previous, EventHash(intent, body, previous))
  }

  // An action that must wait, or that its transaction has not reached, changes nothing.
  function Step(db: Db, action: Action): Db {
    if action.Begin? then
      if action.t in db.active then db
      else db.(active := db.active[action.t := Tx(db.committed, {}, map[], [])])
    else if action.t !in db.active then db
    else
      var t := action.t;
      var tx := db.active[t];
      match action
      case Lock(_, intent) =>
        if LockedByOther(db, t, intent) then db
        else db.(active := db.active[t := tx.(locks := tx.locks + {intent})])
      case ReadTail(_, intent) =>
        if intent !in tx.locks then db
        else db.(active :=
          db.active[t := tx.(tails := tx.tails[intent := TailHash(RowsFor(tx.snapshot + tx.pending, intent))])])
      case Insert(_, intent, body) =>
        if intent !in tx.tails then db
        else
          var row := NewRow(db, intent, body, tx.tails[intent]);
          var after := db.(nextSequence := db.nextSequence + 1);
          if Taken(db.committed, intent, row.previous) || Taken(tx.pending, intent, row.previous)
          then after.(active := db.active - {t})
          else after.(active := db.active[t := tx.(pending := tx.pending + [row])])
      case Commit(_) => db.(committed := db.committed + tx.pending, active := db.active - {t})
      case Abort(_) => db.(active := db.active - {t})
      case Begin(_) => db
  }

  function Run(db: Db, actions: seq<Action>): Db {
    if actions == [] then db else Step(Run(db, actions[..|actions| - 1]), actions[|actions| - 1])
  }

  const EMPTY := Db([], 0, map[])

  // ----- one linear chain -----

  predicate Linked(rows: seq<Row>, i: nat)
    requires i < |rows|
  {
    && rows[i].previous == (if i == 0 then Genesis else rows[i - 1].hash)
    && rows[i].hash == EventHash(rows[i].intent, rows[i].body, rows[i].previous)
    && (i > 0 ==> rows[i - 1].sequence < rows[i].sequence)
  }

  // From GENESIS, each event naming the one before it, in sequence order.
  ghost predicate Chain(rows: seq<Row>) { forall i :: 0 <= i < |rows| ==> Linked(rows, i) }

  ghost predicate SequencesBelow(rows: seq<Row>, n: nat) { forall i :: 0 <= i < |rows| ==> rows[i].sequence < n }

  ghost predicate Within(rows: seq<Row>, locks: set<Id>) { forall i :: 0 <= i < |rows| ==> rows[i].intent in locks }

  // A tail that was read is the hash of an event the transaction could see, or GENESIS.
  ghost predicate TailKnown(db: Db, tx: Tx, intent: Id)
    requires intent in tx.tails
  {
    var rows := RowsFor(db.committed + tx.pending, intent);
    tx.tails[intent] == Genesis || exists i :: 0 <= i < |rows| && rows[i].hash == tx.tails[intent]
  }

  ghost predicate TxInv(db: Db, tx: Tx) {
    && tx.snapshot <= db.committed
    && Within(tx.pending, tx.locks)
    && SequencesBelow(tx.pending, db.nextSequence)
    && tx.tails.Keys <= tx.locks
    && (forall intent :: Chain(RowsFor(db.committed + tx.pending, intent)))
    && (forall intent :: intent in tx.tails ==> TailKnown(db, tx, intent))
  }

  ghost predicate LocksExclusive(db: Db) {
    forall t, u :: t in db.active && u in db.active && t != u ==> db.active[t].locks !! db.active[u].locks
  }

  ghost predicate Inv(db: Db) {
    && SequencesBelow(db.committed, db.nextSequence)
    && (forall intent :: Chain(RowsFor(db.committed, intent)))
    && LocksExclusive(db)
    && (forall t :: t in db.active ==> TxInv(db, db.active[t]))
  }

  // ----- sequences of rows -----

  lemma {:induction false} RowsForSplit(a: seq<Row>, b: seq<Row>, intent: Id)
    ensures RowsFor(a + b, intent) == RowsFor(a, intent) + RowsFor(b, intent)
  {
    if b == [] {
      assert a + b == a;
    } else {
      var n := |b| - 1;
      RowsForSplit(a, b[..n], intent);
      assert (a + b)[..|a + b| - 1] == a + b[..n];
    }
  }

  lemma {:induction false} RowsForNone(rows: seq<Row>, locks: set<Id>, intent: Id)
    requires Within(rows, locks) && intent !in locks
    ensures RowsFor(rows, intent) == []
  {
    if rows != [] { RowsForNone(rows[..|rows| - 1], locks, intent); }
  }

  lemma {:induction false} RowsForIn(rows: seq<Row>, intent: Id, row: Row)
    ensures row in RowsFor(rows, intent) <==> row in rows && row.intent == intent
  {
    if rows != [] {
      RowsForIn(rows[..|rows| - 1], intent, row);
      assert rows == rows[..|rows| - 1] + [rows[|rows| - 1]];
    }
  }

  lemma {:induction false} TailOfChain(rows: seq<Row>)
    requires Chain(rows)
    ensures TailHash(rows) == if rows == [] then Genesis else rows[|rows| - 1].hash
  {
    if rows != [] {
      forall i | 0 <= i < |rows| - 1
        ensures rows[i].sequence < rows[|rows| - 1].sequence
      {
        SequenceOrder(rows, i, |rows| - 1);
      }
    }
  }

  lemma {:induction false} SequenceOrder(rows: seq<Row>, i: int, j: int)
    requires Chain(rows) && 0 <= i < j < |rows|
    ensures rows[i].sequence < rows[j].sequence
    decreases j
  {
    assert Linked(rows, j);
    if i < j - 1 { SequenceOrder(rows, i, j - 1); }
  }

  // A predecessor that is known and not yet taken can only be the last event.
  lemma {:induction false} FreePredecessorIsLast(rows: seq<Row>, previous: Hash)
    requires Chain(rows)
    requires previous == Genesis || exists i :: 0 <= i < |rows| && rows[i].hash == previous
    requires forall i :: 0 <= i < |rows| ==> rows[i].previous != previous
    ensures previous == if rows == [] then Genesis else rows[|rows| - 1].hash
  {
    if rows != [] {
      assert Linked(rows, 0);
      forall k | 0 <= k < |rows| - 1 ensures rows[k].hash != previous { assert Linked(rows, k + 1); }
    }
  }

  lemma {:induction false} ChainSnoc(rows: seq<Row>, row: Row)
    requires Chain(rows) && row.previous == (if rows == [] then Genesis else rows[|rows| - 1].hash)
    requires row.hash == EventHash(row.intent, row.body, row.previous)
    requires forall i :: 0 <= i < |rows| ==> rows[i].sequence < row.sequence
    ensures Chain(rows + [row])
  {
    var all := rows + [row];
    forall i | 0 <= i < |all| ensures Linked(all, i) {
      if i < |rows| { assert Linked(rows, i) && all[i] == rows[i] && (i > 0 ==> all[i - 1] == rows[i - 1]); }
    }
  }

  // ----- every step keeps the invariant -----

  // A transaction that changes neither locks nor rows nor any other transaction's view.
  lemma {:induction false} TxSurvives(db: Db, db': Db, tx: Tx)
    requires TxInv(db, tx) && db'.committed == db.committed && db'.nextSequence >= db.nextSequence
    ensures TxInv(db', tx)
  {
    hide RowsFor, Chain;
    forall intent | intent in tx.tails ensures TailKnown(db', tx, intent) { assert TailKnown(db, tx, intent); }
  }

  lemma {:induction false} OneTxChanged(db: Db, db': Db, t: TxId, tx': Tx)
    requires Inv(db) && t in db.active && db'.committed == db.committed && db'.nextSequence >= db.nextSequence
    requires db'.active == db.active[t := tx'] && TxInv(db', tx')
    requires forall u :: u in db.active && u != t ==> db.active[u].locks !! tx'.locks
    ensures Inv(db')
  {
    hide RowsFor, Chain, TxInv;
    forall u | u in db'.active ensures TxInv(db', db'.active[u]) {
      if u != t { TxSurvives(db, db', db.active[u]); }
    }
  }

  lemma {:induction false} TxEnds(db: Db, db': Db, t: TxId)
    requires Inv(db) && db'.committed == db.committed && db'.nextSequence >= db.nextSequence
    requires db'.active == db.active - {t}
    ensures Inv(db')
  {
    hide RowsFor, Chain, TxInv;
    forall u | u in db'.active ensures TxInv(db', db'.active[u]) { TxSurvives(db, db', db.active[u]); }
  }

  lemma {:induction false} BeginKeeps(db: Db, t: TxId)
    requires Inv(db) && t !in db.active
    ensures Inv(Step(db, Begin(t)))
  {
    hide RowsFor, Chain;
    var tx := Tx(db.committed, {}, map[], []);
    var db' := Step(db, Begin(t));
    assert db.committed + [] == db.committed;
    assert TxInv(db', tx);
    hide TxInv;
    forall u | u in db'.active ensures TxInv(db', db'.active[u]) {
      if u != t { TxSurvives(db, db', db.active[u]); }
    }
  }

  lemma {:induction false} LockKeeps(db: Db, t: TxId, intent: Id)
    requires Inv(db) && t in db.active && !LockedByOther(db, t, intent)
    ensures Inv(Step(db, Lock(t, intent)))
  {
    hide RowsFor, Chain;
    var tx := db.active[t];
    var tx' := tx.(locks := tx.locks + {intent});
    var db' := Step(db, Lock(t, intent));
    forall other | other in tx'.tails ensures TailKnown(db', tx', other) { assert TailKnown(db, tx, other); }
    assert TxInv(db', tx');
    OneTxChanged(db, db', t, tx');
  }

  lemma {:induction false} SnapshotTailKnown(db: Db, tx: Tx, intent: Id)
    requires TxInv(db, tx)
    ensures var tail := TailHash(RowsFor(tx.snapshot + tx.pending, intent));
      var rows := RowsFor(db.committed + tx.pending, intent);
      tail == Genesis || exists i :: 0 <= i < |rows| && rows[i].hash == tail
  {
    var seen, rows := RowsFor(tx.snapshot + tx.pending, intent), RowsFor(db.committed + tx.pending, intent);
    var tail := TailHash(seen);
    if tail != Genesis {
      var i :| 0 <= i < |seen| && seen[i].hash == tail;
      RowsForIn(tx.snapshot + tx.pending, intent, seen[i]);
      assert seen[i] in db.committed + tx.pending;
      RowsForIn(db.committed + tx.pending, intent, seen[i]);
      var j :| 0 <= j < |rows| && rows[j] == seen[i];
    }
  }

  lemma {:induction false} ReadTailKeeps(db: Db, t: TxId, intent: Id)
    requires Inv(db) && t in db.active && intent in db.active[t].locks
    ensures Inv(Step(db, ReadTail(t, intent)))
  {
    hide RowsFor, Chain, TailHash;
    var tx := db.active[t];
    SnapshotTailKnown(db, tx, intent);
    var tx' := tx.(tails := tx.tails[intent := TailHash(RowsFor(tx.snapshot + tx.pending, intent))]);
    var db' := Step(db, ReadTail(t, intent));
    forall other | other in tx'.tails ensures TailKnown(db', tx', other) {
      if other != intent { assert TailKnown(db, tx, other); }
    }
    assert TxInv(db', tx');
    OneTxChanged(db, db', t, tx');
  }

  // An accepted insert names the last event there is, however old the snapshot.
  lemma {:induction false} AcceptedInsertExtends(db: Db, tx: Tx, intent: Id)
    requires TxInv(db, tx) && intent in tx.tails
    requires !Taken(db.committed, intent, tx.tails[intent]) && !Taken(tx.pending, intent, tx.tails[intent])
    ensures var rows := RowsFor(db.committed + tx.pending, intent);
      tx.tails[intent] == if rows == [] then Genesis else rows[|rows| - 1].hash
  {
    var rows := RowsFor(db.committed + tx.pending, intent);
    assert TailKnown(db, tx, intent);
    forall i | 0 <= i < |rows| ensures rows[i].previous != tx.tails[intent] {
      RowsForIn(db.committed + tx.pending, intent, rows[i]);
      hide RowsFor;
      if rows[i] in db.committed {
        var k :| 0 <= k < |db.committed| && db.committed[k] == rows[i];
      } else {
        var k :| 0 <= k < |tx.pending| && tx.pending[k] == rows[i];
      }
    }
    hide RowsFor;
    FreePredecessorIsLast(rows, tx.tails[intent]);
  }

  lemma {:induction false} AllBelow(db: Db, tx: Tx, intent: Id)
    requires SequencesBelow(db.committed, db.nextSequence) && SequencesBelow(tx.pending, db.nextSequence)
    ensures SequencesBelow(RowsFor(db.committed + tx.pending, intent), db.nextSequence)
  {
    var rows := RowsFor(db.committed + tx.pending, intent);
    forall i | 0 <= i < |rows| ensures rows[i].sequence < db.nextSequence {
      RowsForIn(db.committed + tx.pending, intent, rows[i]);
    }
  }

  lemma {:induction false} InsertChains(db: Db, tx: Tx, intent: Id, body: string, other: Id)
    requires SequencesBelow(db.committed, db.nextSequence) && TxInv(db, tx) && intent in tx.tails
    requires !Taken(db.committed, intent, tx.tails[intent]) && !Taken(tx.pending, intent, tx.tails[intent])
    ensures var row := NewRow(db, intent, body, tx.tails[intent]);
      && RowsFor(db.committed + (tx.pending + [row]), other)
           == RowsFor(db.committed + tx.pending, other) + (if other == intent then [row] else [])
      && Chain(RowsFor(db.committed + (tx.pending + [row]), other))
  {
    var row := NewRow(db, intent, body, tx.tails[intent]);
    var rows := RowsFor(db.committed + tx.pending, other);
    assert db.committed + (tx.pending + [row]) == (db.committed + tx.pending) + [row];
    assert ((db.committed + tx.pending) + [row])[..|db.committed + tx.pending|] == db.committed + tx.pending;
    assert rows + [] == rows;
    if other == intent {
      AcceptedInsertExtends(db, tx, intent);
      AllBelow(db, tx, intent);
      hide RowsFor, Linked;
      ChainSnoc(rows, row);
    }
  }

  lemma {:induction false} InsertKeeps(db: Db, t: TxId, intent: Id, body: string)
    requires Inv(db) && t in db.active && intent in db.active[t].tails
    requires !Taken(db.committed, intent, db.active[t].tails[intent])
    requires !Taken(db.active[t].pending, intent, db.active[t].tails[intent])
    ensures Inv(Step(db, Insert(t, intent, body)))
  {
    var tx := db.active[t];
    var row := NewRow(db, intent, body, tx.tails[intent]);
    var tx' := tx.(pending := tx.pending + [row]);
    var db' := Step(db, Insert(t, intent, body));
    forall other
      ensures Chain(RowsFor(db'.committed + tx'.pending, other))
    {
      InsertChains(db, tx, intent, body, other);
    }
    forall other | other in tx'.tails ensures TailKnown(db', tx', other) {
      InsertChains(db, tx, intent, body, other);
      assert TailKnown(db, tx, other);
      var rows, rows' := RowsFor(db.committed + tx.pending, other), RowsFor(db'.committed + tx'.pending, other);
      hide RowsFor;
      assert rows <= rows';
    }
    hide RowsFor, Chain, Taken, TailKnown;
    assert TxInv(db', tx');
    OneTxChanged(db, db', t, tx');
  }

  // While another transaction holds an intent's lock, its events do not change.
  lemma {:induction false} CommitSpares(db: Db, t: TxId, u: TxId)
    requires Inv(db) && t in db.active && u in db.active && t != u
    ensures TxInv(Step(db, Commit(t)), db.active[u])
  {
    var db' := Step(db, Commit(t));
    var tx, other := db.active[t], db.active[u];
    forall intent
      ensures Chain(RowsFor(db'.committed + other.pending, intent))
      ensures intent in other.tails ==> TailKnown(db', other, intent)
    {
      RowsForSplit(db.committed, tx.pending, intent);
      RowsForSplit(db'.committed, other.pending, intent);
      RowsForSplit(db.committed, other.pending, intent);
      if intent in other.locks {
        RowsForNone(tx.pending, tx.locks, intent);
        assert RowsFor(db'.committed + other.pending, intent) == RowsFor(db.committed + other.pending, intent);
        if intent in other.tails { assert TailKnown(db, other, intent); }
      } else {
        RowsForNone(other.pending, other.locks, intent);
        assert RowsFor(db'.committed + other.pending, intent) == RowsFor(db.committed + tx.pending, intent);
      }
    }
  }

  lemma {:induction false} CommitKeeps(db: Db, t: TxId)
    requires Inv(db) && t in db.active
    ensures Inv(Step(db, Commit(t)))
  {
    var db' := Step(db, Commit(t));
    forall u | u in db'.active ensures TxInv(db', db'.active[u]) { CommitSpares(db, t, u); }
  }

  lemma {:induction false} StepKeeps(db: Db, action: Action)
    requires Inv(db)
    ensures Inv(Step(db, action)) && db.committed <= Step(db, action).committed
  {
    hide Inv, RowsFor, TailHash, Taken;
    if action.Begin? {
      if action.t !in db.active { BeginKeeps(db, action.t); }
    } else if action.t in db.active {
      match action
      case Lock(t, intent) => if !LockedByOther(db, t, intent) { LockKeeps(db, t, intent); }
      case ReadTail(t, intent) => if intent in db.active[t].locks { ReadTailKeeps(db, t, intent); }
      case Insert(t, intent, body) =>
        if intent in db.active[t].tails {
          var previous := db.active[t].tails[intent];
          if Taken(db.committed, intent, previous) || Taken(db.active[t].pending, intent, previous) {
            TxEnds(db, Step(db, action), t);
          } else {
            InsertKeeps(db, t, intent, body);
          }
        }
      case Commit(t) => CommitKeeps(db, t);
      case Abort(t) => TxEnds(db, Step(db, action), t);
      case Begin(_) =>
    }
  }

  // ----- every interleaving -----

  lemma {:induction false} RunKeeps(db: Db, actions: seq<Action>)
    requires Inv(db)
    ensures Inv(Run(db, actions)) && db.committed <= Run(db, actions).committed
  {
    hide Inv, Step;
    if actions != [] {
      var n := |actions| - 1;
      RunKeeps(db, actions[..n]);
      StepKeeps(Run(db, actions[..n]), actions[n]);
    }
  }

  lemma {:induction false} HashOnce(rows: seq<Row>, i: int, j: int)
    requires Chain(rows) && 0 <= i <= j < |rows| && rows[i].hash == rows[j].hash
    ensures i == j
    decreases i
  {
    assert Linked(rows, i) && Linked(rows, j);
    if j > 0 { assert Linked(rows, j - 1); }
    if i > 0 { HashOnce(rows, i - 1, j - 1); }
  }

  // Whatever the interleaving, the committed events of an intent are one chain from GENESIS in
  // sequence order; no two share a predecessor; and nothing committed is ever lost or changed.
  lemma {:induction false} OneLinearChain(actions: seq<Action>, more: seq<Action>, intent: Id)
    ensures var rows := RowsFor(Run(EMPTY, actions).committed, intent);
      && Chain(rows)
      && (forall i, j :: 0 <= i < j < |rows| ==> rows[i].previous != rows[j].previous)
    ensures Run(EMPTY, actions).committed <= Run(Run(EMPTY, actions), more).committed
  {
    RunKeeps(EMPTY, actions);
    RunKeeps(Run(EMPTY, actions), more);
    var rows := RowsFor(Run(EMPTY, actions).committed, intent);
    forall i, j | 0 <= i < j < |rows| ensures rows[i].previous != rows[j].previous {
      assert Linked(rows, i) && Linked(rows, j);
      if i > 0 && rows[i - 1].hash == rows[j - 1].hash { HashOnce(rows, i - 1, j - 1); }
      if i == 0 { assert Linked(rows, j - 1); }
    }
  }

  // In a chain, the tail of a beginning is already named by some event exactly when more follows.
  lemma {:induction false} BeginningTaken(rows: seq<Row>, n: nat)
    requires Chain(rows) && n <= |rows|
    ensures (exists k :: 0 <= k < |rows| && rows[k].previous == TailHash(rows[..n])) <==> n < |rows|
  {
    var begin := rows[..n];
    forall i | 0 <= i < n ensures Linked(begin, i) { assert Linked(rows, i); }
    TailOfChain(begin);
    if n < |rows| {
      assert Linked(rows, n);
      assert rows[n].previous == TailHash(begin);
    } else {
      forall k | 0 <= k < |rows| ensures rows[k].previous != TailHash(begin) {
        assert Linked(rows, k) && Linked(rows, n - 1);
        if k > 0 && rows[k - 1].hash == rows[n - 1].hash { HashOnce(rows, k - 1, n - 1); }
      }
    }
  }

  lemma {:induction false} TakenFor(rows: seq<Row>, intent: Id, previous: Hash)
    ensures Taken(rows, intent, previous) <==>
      var own := RowsFor(rows, intent); exists k :: 0 <= k < |own| && own[k].previous == previous
  {
    var own := RowsFor(rows, intent);
    if Taken(rows, intent, previous) {
      var i :| 0 <= i < |rows| && rows[i].intent == intent && rows[i].previous == previous;
      RowsForIn(rows, intent, rows[i]);
      var k :| 0 <= k < |own| && own[k] == rows[i];
    }
    if k :| 0 <= k < |own| && own[k].previous == previous {
      RowsForIn(rows, intent, own[k]);
      var i :| 0 <= i < |rows| && rows[i] == own[k];
    }
  }

  // A first append under the lock is refused exactly when its snapshot misses an event of that intent.
  lemma {:induction false} StaleExactlyRefused(db: Db, t: TxId, intent: Id)
    requires Inv(db) && t in db.active && intent in db.active[t].locks && RowsFor(db.active[t].pending, intent) == []
    ensures var tail := TailHash(RowsFor(db.active[t].snapshot + db.active[t].pending, intent));
      (Taken(db.committed, intent, tail) || Taken(db.active[t].pending, intent, tail))
      <==> RowsFor(db.active[t].snapshot, intent) != RowsFor(db.committed, intent)
  {
    var tx := db.active[t];
    var tail := TailHash(RowsFor(tx.snapshot + tx.pending, intent));
    var seen, all := RowsFor(tx.snapshot, intent), RowsFor(db.committed, intent);
    assert TxInv(db, tx);
    assert db.committed == tx.snapshot + db.committed[|tx.snapshot|..];
    RowsForSplit(tx.snapshot, db.committed[|tx.snapshot|..], intent);
    RowsForSplit(tx.snapshot, tx.pending, intent);
    assert seen + [] == seen && all[..|seen|] == seen;
    TakenFor(db.committed, intent, tail);
    TakenFor(tx.pending, intent, tail);
    BeginningTaken(all, |seen|);
    assert seen == all <==> |seen| == |all|;
  }

  // So reading the tail and inserting ends the transaction exactly then; otherwise the new event names
  // the last one committed. Either way a sequence number is used up and nothing committed changes.
  lemma {:induction false} AppendOutcome(db: Db, t: TxId, intent: Id, body: string)
    requires Inv(db) && t in db.active && intent in db.active[t].locks && RowsFor(db.active[t].pending, intent) == []
    ensures var rows := RowsFor(db.committed, intent);
      var last := if rows == [] then Genesis else rows[|rows| - 1].hash;
      var after := Step(Step(db, ReadTail(t, intent)), Insert(t, intent, body));
      && after.committed == db.committed && after.nextSequence == db.nextSequence + 1
      && (t !in after.active <==> RowsFor(db.active[t].snapshot, intent) != rows)
      && (t in after.active ==>
            after.active[t].pending
            == db.active[t].pending + [Row(db.nextSequence, intent, body, last, EventHash(intent, body, last))])
      && forall u :: u != t ==> (u in after.active <==> u in db.active)
                                && (u in db.active ==> after.active[u] == db.active[u])
  {
    hide Inv, RowsFor, TailHash, Taken, Chain;
    StaleExactlyRefused(db, t, intent);
    LastIsTail(db, intent);
    SeenTail(db, t, intent);
  }

  // A transaction that has appended nothing there sees its snapshot's tail.
  lemma {:induction false} SeenTail(db: Db, t: TxId, intent: Id)
    requires t in db.active && RowsFor(db.active[t].pending, intent) == []
    ensures RowsFor(db.active[t].snapshot + db.active[t].pending, intent) == RowsFor(db.active[t].snapshot, intent)
  {
    RowsForSplit(db.active[t].snapshot, db.active[t].pending, intent);
  }

  // The other steps: a snapshot is what is committed, a row lock is granted exactly while nobody else
  // holds it, a tail is read only under it and an event inserted only after that, a commit appends
  // what was pending, and an abort drops it.
  lemma {:induction false} OtherSteps(db: Db, t: TxId, intent: Id, body: string)
    ensures t !in db.active ==>
      && Step(db, Begin(t)) == db.(active := db.active[t := Tx(db.committed, {}, map[], [])])
      && forall action: Action :: action.t == t && !action.Begin? ==> Step(db, action) == db
    ensures t in db.active ==>
      var tx := db.active[t];
      var held := exists u :: u in db.active && u != t && intent in db.active[u].locks;
      && Step(db, Begin(t)) == db
      && Step(db, Lock(t, intent))
         == (if held then db else db.(active := db.active[t := tx.(locks := tx.locks + {intent})]))
      && (intent !in tx.locks ==> Step(db, ReadTail(t, intent)) == db)
      && (intent !in tx.tails ==> Step(db, Insert(t, intent, body)) == db)
      && Step(db, Commit(t)) == db.(committed := db.committed + tx.pending, active := db.active - {t})
      && Step(db, Abort(t)) == db.(active := db.active - {t})
  {
  }

  // The constraint never has to wait for a rival: no one else has an uncommitted event there.
  lemma {:induction false} NoRival(db: Db, t: TxId, u: TxId, intent: Id)
    requires Inv(db) && t in db.active && u in db.active && t != u && intent in db.active[t].locks
    ensures RowsFor(db.active[u].pending, intent) == []
  {
    assert TxInv(db, db.active[u]);
    RowsForNone(db.active[u].pending, db.active[u].locks, intent);
  }

  // A whole-transaction retry, undisturbed, appends its event at the end of the chain.
  lemma {:induction false} RetrySucceeds(db: Db, t: TxId, intent: Id, body: string)
    requires Inv(db) && t !in db.active && forall u :: u in db.active ==> intent !in db.active[u].locks
    ensures var rows := RowsFor(db.committed, intent);
      var row := NewRow(db, intent, body, if rows == [] then Genesis else rows[|rows| - 1].hash);
      Run(db, [Begin(t), Lock(t, intent), ReadTail(t, intent), Insert(t, intent, body), Commit(t)]).committed
        == db.committed + [row]
  {
    hide Inv, RowsFor, TailHash, Taken;
    var d1 := Step(db, Begin(t));
    StepKeeps(db, Begin(t));
    var d2 := Step(d1, Lock(t, intent));
    StepKeeps(d1, Lock(t, intent));
    assert db.committed + [] == db.committed;
    NoRows(intent);
    StaleExactlyRefused(d2, t, intent);
    LastIsTail(db, intent);
    var d3 := Step(d2, ReadTail(t, intent));
    var d4 := Step(d3, Insert(t, intent, body));
    RunOfFive(db, Begin(t), Lock(t, intent), ReadTail(t, intent), Insert(t, intent, body), Commit(t));
    assert Step(d4, Commit(t)).committed
      == db.committed + ([] + [NewRow(db, intent, body, TailHash(RowsFor(db.committed, intent)))]);
  }

  lemma {:induction false} NoRows(intent: Id)
    ensures RowsFor([], intent) == []
  {
  }

  lemma {:induction false} LastIsTail(db: Db, intent: Id)
    requires Inv(db)
    ensures var rows := RowsFor(db.committed, intent);
      TailHash(rows) == if rows == [] then Genesis else rows[|rows| - 1].hash
  {
    TailOfChain(RowsFor(db.committed, intent));
  }

  lemma {:induction false} RunOfFive(db: Db, a: Action, b: Action, c: Action, d: Action, e: Action)
    ensures Run(db, [a, b, c, d, e]) == Step(Step(Step(Step(Step(db, a), b), c), d), e)
  {
    hide Step;
    assert [a][..0] == [] && Run(db, [a]) == Step(db, a);
    assert [a, b][..1] == [a] && Run(db, [a, b]) == Step(Run(db, [a]), b);
    assert [a, b, c][..2] == [a, b] && Run(db, [a, b, c]) == Step(Run(db, [a, b]), c);
    assert [a, b, c, d][..3] == [a, b, c] && Run(db, [a, b, c, d]) == Step(Run(db, [a, b, c]), d);
    assert [a, b, c, d, e][..4] == [a, b, c, d];
  }
}
