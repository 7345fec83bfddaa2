// The five tables of the database, and the evidence each intent has in them.
module Tables {
  import opened Basics
  import opened Evidence
  import opened Store

  datatype Database = Database(
    intents: map<Id, Intent>,
    approvals: seq<Approval>,
    observations: seq<Observation>,
    auditEvents: seq<AuditEvent>,
    envelopes: map<Id, Envelope>)

  // WHERE intent_id = ?, in insertion order.
  function RowsOf<T>(rows: seq<T>, owner: T -> Id, id: Id): seq<T> {
    if rows == [] then []
    else RowsOf(rows[..|rows| - 1], owner, id) + (if owner(Last(rows)) == id then [Last(rows)] else [])
  }

  const ApprovalOwner := (a: Approval) => a.intentId
  const ObservationOwner := (o: Observation) => o.intentId
  const EventOwner := (e: AuditEvent) => e.body.intentId

  function EnvelopesOf(envelopes: map<Id, Envelope>, id: Id): map<Id, Envelope> {
    map e | e in envelopes && envelopes[e].intentId == id :: envelopes[e]
  }

  function SliceOf(db: Database, id: Id): Slice
    requires id in db.intents
  {
    Slice(db.intents[id],
          RowsOf(db.approvals, ApprovalOwner, id),
          RowsOf(db.observations, ObservationOwner, id),
          RowsOf(db.auditEvents, EventOwner, id),
          EnvelopesOf(db.envelopes, id))
  }

  function BookOf(db: Database): Book {
    map id | id in db.intents :: SliceOf(db, id)
  }

  ghost predicate Linked<T>(rows: seq<T>, owner: T -> Id, ids: set<Id>) {
    forall i :: 0 <= i < |rows| ==> owner(rows[i]) in ids
  }

  ghost predicate IntentsConsistent(tenant: string, intents: map<Id, Intent>) {
    && (forall id :: id in intents ==> intents[id].id == id && intents[id].tenantId == tenant)
    && (forall a, b :: a in intents && b in intents && SameKey(intents[a], intents[b]) ==> a == b)
  }

  // Primary, foreign and unique keys; one database serves one tenant.
  ghost predicate Consistent(tenant: string, db: Database) {
    && IntentsConsistent(tenant, db.intents)
    && Linked(db.approvals, ApprovalOwner, db.intents.Keys)
    && Linked(db.observations, ObservationOwner, db.intents.Keys)
    && Linked(db.auditEvents, EventOwner, db.intents.Keys)
    && (forall e :: e in db.envelopes ==> db.envelopes[e].intentId in db.intents)
    && (forall a, b :: a in db.envelopes && b in db.envelopes && SameState(db.envelopes[a], db.envelopes[b]) ==> a == b)
  }

  predicate SameState(a: Envelope, b: Envelope) {
    a.tenantId == b.tenantId && a.intentId == b.intentId && a.stateVersion == b.stateVersion && a.audience == b.audience
  }

  predicate SameKey(a: Intent, b: Intent) {
    a.tenantId == b.tenantId && a.agentId == b.agentId && a.idempotencyKey == b.idempotencyKey
  }

  lemma {:induction false} IntentIds(tenant: string, db: Database, id: Id)
    requires Consistent(tenant, db) && id in db.intents
    ensures db.intents[id].id == id && db.intents[id].tenantId == tenant
  {
  }

  lemma {:induction false} InBook(db: Database, id: Id)
    ensures id in BookOf(db) <==> id in db.intents
  {
  }

  lemma {:induction false} RowInBook(tenant: string, db: Database, id: Id)
    requires Consistent(tenant, db) && id in db.intents
    ensures id in BookOf(db) && BookOf(db)[id] == SliceOf(db, id)
    ensures SliceOf(db, id).intent == db.intents[id] && db.intents[id].id == id && db.intents[id].tenantId == tenant
    ensures SliceOf(db, id).observations == RowsOf(db.observations, ObservationOwner, id)
  {
  }

  // ----- what one statement does to the evidence -----

  lemma {:induction false} RowsOfLinked<T>(rows: seq<T>, owner: T -> Id, id: Id, ids: set<Id>)
    requires Linked(rows, owner, ids) && id !in ids
    ensures RowsOf(rows, owner, id) == []
  {
    if rows != [] { RowsOfLinked(rows[..|rows| - 1], owner, id, ids); }
  }

  lemma {:induction false} RowsOfSnoc<T>(rows: seq<T>, row: T, owner: T -> Id, id: Id)
    ensures RowsOf(rows + [row], owner, id) == RowsOf(rows, owner, id) + (if owner(row) == id then [row] else [])
  {
    assert (rows + [row])[..|rows|] == rows;
  }

  lemma {:induction false} BookUpdated(db: Database, db': Database, id: Id)
    requires id in db.intents && db'.intents.Keys == db.intents.Keys
    requires forall other :: other in db.intents && other != id ==> SliceOf(db', other) == SliceOf(db, other)
    ensures BookOf(db') == BookOf(db)[id := SliceOf(db', id)]
  {
    hide SliceOf;
  }

  lemma {:induction false} RowReplaced(tenant: string, intents: map<Id, Intent>, id: Id, row: Intent)
    requires IntentsConsistent(tenant, intents) && id in intents
    requires row.id == id && row.tenantId == tenant && SameKey(row, intents[id])
    ensures IntentsConsistent(tenant, intents[id := row])
  {
  }

  lemma {:induction false} IntentUpdated(tenant: string, db: Database, id: Id, row: Intent)
    requires Consistent(tenant, db) && id in db.intents
    requires row.id == id && row.tenantId == tenant && SameKey(row, db.intents[id])
    ensures var db' := db.(intents := db.intents[id := row]);
      Consistent(tenant, db') && BookOf(db') == BookOf(db)[id := SliceOf(db, id).(intent := row)]
  {
    var db' := db.(intents := db.intents[id := row]);
    RowReplaced(tenant, db.intents, id, row);
    hide RowsOf, EnvelopesOf, Linked, SameState, IntentsConsistent, SameKey;
    assert db'.intents.Keys == db.intents.Keys;
    BookUpdated(db, db', id);
  }

  lemma {:induction false} NewRowSlice(tenant: string, db: Database, id: Id, row: Intent)
    requires Consistent(tenant, db) && id !in db.intents
    ensures SliceOf(db.(intents := db.intents[id := row]), id) == Slice(row, [], [], [], map[])
  {
    hide RowsOf;
    RowsOfLinked(db.approvals, ApprovalOwner, id, db.intents.Keys);
    RowsOfLinked(db.observations, ObservationOwner, id, db.intents.Keys);
    RowsOfLinked(db.auditEvents, EventOwner, id, db.intents.Keys);
    assert EnvelopesOf(db.envelopes, id) == map[];
  }

  lemma {:induction false} SameRowsSame(db: Database, db': Database, id: Id)
    requires id in db.intents && id in db'.intents && db'.intents[id] == db.intents[id]
    requires db' == db.(intents := db'.intents)
    ensures SliceOf(db', id) == SliceOf(db, id)
  {
  }

  lemma {:induction false} BookExtended(db: Database, db': Database, id: Id)
    requires id !in db.intents && db'.intents.Keys == db.intents.Keys + {id}
    requires forall other :: other in db.intents ==> SliceOf(db', other) == SliceOf(db, other)
    ensures BookOf(db') == BookOf(db)[id := SliceOf(db', id)]
  {
    hide SliceOf;
  }

  lemma {:induction false} IntentLinks(tenant: string, db: Database, id: Id, row: Intent)
    requires Consistent(tenant, db) && id !in db.intents && row.id == id && row.tenantId == tenant
    requires forall other :: other in db.intents ==> !SameKey(row, db.intents[other])
    ensures Consistent(tenant, db.(intents := db.intents[id := row]))
  {
    hide SameState;
  }

  lemma {:induction false} IntentInserted(tenant: string, db: Database, id: Id, row: Intent)
    requires Consistent(tenant, db) && id !in db.intents && row.id == id && row.tenantId == tenant
    requires forall other :: other in db.intents ==> !SameKey(row, db.intents[other])
    ensures var db' := db.(intents := db.intents[id := row]);
      Consistent(tenant, db') && BookOf(db') == BookOf(db)[id := Slice(row, [], [], [], map[])]
  {
    hide RowsOf, EnvelopesOf, Consistent, SliceOf, BookOf;
    IntentLinks(tenant, db, id, row);
    NewRowSlice(tenant, db, id, row);
    var db' := db.(intents := db.intents[id := row]);
    forall other | other in db.intents
      ensures SliceOf(db', other) == SliceOf(db, other)
    {
      SameRowsSame(db, db', other);
    }
    BookExtended(db, db', id);
  }

  lemma {:induction false} LinkedSnoc<T>(rows: seq<T>, row: T, owner: T -> Id, ids: set<Id>)
    requires Linked(rows, owner, ids) && owner(row) in ids
    ensures Linked(rows + [row], owner, ids)
  {
  }

  lemma {:induction false} ApprovalInserted(tenant: string, db: Database, a: Approval)
    requires Consistent(tenant, db) && a.intentId in db.intents
    ensures var db', s := db.(approvals := db.approvals + [a]), SliceOf(db, a.intentId);
      Consistent(tenant, db') && BookOf(db') == BookOf(db)[a.intentId := s.(approvals := s.approvals + [a])]
  {
    hide RowsOf;
    var db', s := db.(approvals := db.approvals + [a]), SliceOf(db, a.intentId);
    LinkedSnoc(db.approvals, a, ApprovalOwner, db.intents.Keys);
    forall id | id in db.intents
      ensures SliceOf(db', id) == if id == a.intentId then s.(approvals := s.approvals + [a]) else SliceOf(db, id)
    {
      RowsOfSnoc(db.approvals, a, ApprovalOwner, id);
    }
    BookUpdated(db, db', a.intentId);
  }

  lemma {:induction false} ObservationInserted(tenant: string, db: Database, o: Observation)
    requires Consistent(tenant, db) && o.intentId in db.intents
    ensures var db', s := db.(observations := db.observations + [o]), SliceOf(db, o.intentId);
      Consistent(tenant, db') && BookOf(db') == BookOf(db)[o.intentId := s.(observations := s.observations + [o])]
  {
    hide RowsOf;
    var db', s := db.(observations := db.observations + [o]), SliceOf(db, o.intentId);
    LinkedSnoc(db.observations, o, ObservationOwner, db.intents.Keys);
    forall id | id in db.intents
      ensures SliceOf(db', id) == if id == o.intentId then s.(observations := s.observations + [o]) else SliceOf(db, id)
    {
      RowsOfSnoc(db.observations, o, ObservationOwner, id);
    }
    BookUpdated(db, db', o.intentId);
  }

  lemma {:induction false} EventInserted(tenant: string, db: Database, e: AuditEvent)
    requires Consistent(tenant, db) && e.body.intentId in db.intents
    ensures var db', s := db.(auditEvents := db.auditEvents + [e]), SliceOf(db, e.body.intentId);
      Consistent(tenant, db') && BookOf(db') == BookOf(db)[e.body.intentId := s.(events := s.events + [e])]
  {
    hide RowsOf;
    var db', s := db.(auditEvents := db.auditEvents + [e]), SliceOf(db, e.body.intentId);
    LinkedSnoc(db.auditEvents, e, EventOwner, db.intents.Keys);
    forall id | id in db.intents
      ensures SliceOf(db', id) == if id == e.body.intentId then s.(events := s.events + [e]) else SliceOf(db, id)
    {
      RowsOfSnoc(db.auditEvents, e, EventOwner, id);
    }
    BookUpdated(db, db', e.body.intentId);
  }

  lemma {:induction false} EnvelopesWritten(envelopes: map<Id, Envelope>, eid: Id, env: Envelope, id: Id)
    requires eid in envelopes ==> envelopes[eid].intentId == env.intentId
    ensures EnvelopesOf(envelopes[eid := env], id)
         == if id == env.intentId then EnvelopesOf(envelopes, id)[eid := env] else EnvelopesOf(envelopes, id)
  {
  }

  lemma {:induction false} EnvelopeWritten(tenant: string, db: Database, eid: Id, env: Envelope)
    requires Consistent(tenant, db) && env.intentId in db.intents
    requires eid in db.envelopes ==> db.envelopes[eid].intentId == env.intentId
    requires forall e :: e in db.envelopes && e != eid ==> !SameState(env, db.envelopes[e])
    ensures var db', s := db.(envelopes := db.envelopes[eid := env]), SliceOf(db, env.intentId);
      Consistent(tenant, db') && BookOf(db') == BookOf(db)[env.intentId := s.(envelopes := s.envelopes[eid := env])]
  {
    hide RowsOf, EnvelopesOf;
    var db', s := db.(envelopes := db.envelopes[eid := env]), SliceOf(db, env.intentId);
    forall id | id in db.intents
      ensures SliceOf(db', id) == if id == env.intentId then s.(envelopes := s.envelopes[eid := env])
                             else SliceOf(db, id)
    {
      EnvelopesWritten(db.envelopes, eid, env, id);
    }
    BookUpdated(db, db', env.intentId);
  }

  // SELECT ... WHERE id = ? finds the envelope the book keeps under its intent.
  lemma {:induction false} EnvelopeOwner(tenant: string, db: Database, eid: Id)
    requires Consistent(tenant, db)
    ensures OwnerOf(BookOf(db), eid) == if eid in db.envelopes then Some(db.envelopes[eid].intentId) else None
  {
    if eid in db.envelopes {
      var id := db.envelopes[eid].intentId;
      assert id in BookOf(db) && eid in BookOf(db)[id].envelopes;
    }
  }

  lemma {:induction false} EmptyBook(db: Database)
    ensures BookOf(db) == map[] <==> db.intents == map[]
  {
    if db.intents != map[] {
      var id :| id in db.intents;
      assert id in BookOf(db);
    }
  }

  lemma {:induction false} EnvelopeInBook(tenant: string, db: Database, eid: Id)
    requires Consistent(tenant, db) && eid in db.envelopes
    ensures var id := db.envelopes[eid].intentId;
      && id in db.intents && id in BookOf(db) && BookOf(db)[id] == SliceOf(db, id)
      && eid in BookOf(db)[id].envelopes && BookOf(db)[id].envelopes[eid] == db.envelopes[eid]
    ensures forall e :: e in db.envelopes && e != eid ==> !SameState(db.envelopes[eid], db.envelopes[e])
  {
  }

  // The unique key decides which row an idempotent replay finds.
  lemma {:induction false} KeyOwner(cfg: Config, db: Database, agentId: string, key: string)
    requires Consistent(cfg.tenantId, db)
    ensures var found := FindByKey(cfg, BookOf(db), agentId, key);
      && (found.Some? ==> found.value in db.intents && UsesKey(db.intents[found.value], cfg, agentId, key))
      && (forall id :: id in db.intents && UsesKey(db.intents[id], cfg, agentId, key) ==> found == Some(id))
  {
    forall id | id in db.intents && UsesKey(db.intents[id], cfg, agentId, key)
      ensures FindByKey(cfg, BookOf(db), agentId, key) == Some(id)
    {
      assert id in BookOf(db) && UsesKey(BookOf(db)[id].intent, cfg, agentId, key);
    }
  }

  lemma {:induction false} StateOwner(cfg: Config, db: Database, id: Id, audience: string)
    requires Consistent(cfg.tenantId, db) && id in db.intents
    ensures var s := SliceOf(db, id); var found := FindForState(cfg, s, audience);
      && (found.Some? ==> found.value in s.envelopes && ForState(s.envelopes[found.value], cfg, s, audience))
      && (forall e :: e in db.envelopes && db.envelopes[e].intentId == id && ForState(db.envelopes[e], cfg, s, audience)
            ==> found == Some(e))
  {
    var s := SliceOf(db, id);
    forall e | e in db.envelopes && db.envelopes[e].intentId == id && ForState(db.envelopes[e], cfg, s, audience)
      ensures FindForState(cfg, s, audience) == Some(e)
    {
      assert e in s.envelopes && ForState(s.envelopes[e], cfg, s, audience);
    }
  }

  predicate KeysFree(db: Database, eid: Id, nonce: Nonce) {
    eid !in db.envelopes && forall e :: e in db.envelopes ==> db.envelopes[e].nonceHash != OfText(nonce)
  }

  lemma {:induction false} KeysFreeInBook(tenant: string, db: Database, eid: Id, nonce: Nonce)
    requires Consistent(tenant, db)
    ensures KeysFree(db, eid, nonce) == EnvelopeKeysFree(BookOf(db), eid, nonce)
  {
    if EnvelopeKeysFree(BookOf(db), eid, nonce) {
      forall e | e in db.envelopes ensures e != eid && db.envelopes[e].nonceHash != OfText(nonce) {
        assert e in BookOf(db)[db.envelopes[e].intentId].envelopes;
      }
    }
  }
}
