// What the hashes pin: one chain tip fixes everything a report covers, one intent hash the
// proposal's columns, one checkpoint the key registry, one integrity root the configuration.
module Pinned {
  import opened Basics
  import opened Evidence
  import opened Integrity
  import opened Counting
  import opened Soundness
  import opened Operations
  import opened SigningKeys

  // The intent hash covers every column but the request's fingerprint, the status and its version.
  lemma {:induction false} HashPinsRow(cfg: Config, a: Intent, b: Intent)
    requires IntentHashValid(cfg, a) && IntentHashValid(cfg, b) && a.intentHash == b.intentHash
    ensures b == a.(requestFingerprint := b.requestFingerprint, status := b.status, stateVersion := b.stateVersion)
  {
  }

  // ----- events of one kind tell of as many ids, each of its own -----

  ghost predicate Tells(events: seq<AuditEvent>, kind: EventType -> bool, eid: Id, k: int) {
    0 <= k < |events| && kind(events[k].body.eventType) && Get(events[k].body.payload, EnvelopeIdField) == Text(eid)
  }

  ghost predicate Told(events: seq<AuditEvent>, kind: EventType -> bool, eid: Id) {
    exists k :: Tells(events, kind, eid, k)
  }

  lemma {:induction false} TellingSet(events: seq<AuditEvent>, kind: EventType -> bool, ids: set<Id>)
    returns (found: set<int>)
    requires forall e :: e in ids ==> Told(events, kind, e)
    ensures |found| == |ids| && found <= Indices(events, kind)
    ensures forall k :: k in found ==> exists e :: e in ids && Tells(events, kind, e, k)
  {
    found := {};
    if ids != {} {
      var e :| e in ids;
      found := TellingSet(events, kind, ids - {e});
      var k :| Tells(events, kind, e, k);
      assert k !in found;
      found := found + {k};
    }
  }

  // With as many events of the kind as ids, each event tells of an id.
  lemma {:induction false} EachTells(events: seq<AuditEvent>, kind: EventType -> bool, ids: set<Id>, k: nat)
    requires |Select(events, kind)| == |ids| && forall e :: e in ids ==> Told(events, kind, e)
    requires k < |events| && kind(events[k].body.eventType)
    ensures exists e :: e in ids && Tells(events, kind, e, k)
  {
    hide Tells, Told, Select;
    IndicesCount(events, kind);
    var all := TellingSet(events, kind, ids);
    SetSplit(all, Indices(events, kind));
    assert k in Indices(events, kind);
  }

  lemma {:induction false} TellsOne(events: seq<AuditEvent>, kind: EventType -> bool, d: Id, e: Id, k: int)
    requires Tells(events, kind, d, k) && Tells(events, kind, e, k)
    ensures d == e && k in Indices(events, kind)
  {
  }

  // And of each id one event tells.
  lemma {:induction false} ToldOnce(events: seq<AuditEvent>, kind: EventType -> bool, ids: set<Id>, e: Id, j: int,
                                    k: int)
    requires |Select(events, kind)| == |ids| && forall e :: e in ids ==> Told(events, kind, e)
    requires e in ids && Tells(events, kind, e, j) && Tells(events, kind, e, k)
    ensures j == k
  {
    hide Tells, Told, Select, Indices;
    IndicesCount(events, kind);
    var others := TellingSet(events, kind, ids - {e});
    forall i | i in others && Tells(events, kind, e, i) ensures false {
      var d :| d in ids - {e} && Tells(events, kind, d, i);
      TellsOne(events, kind, d, e, i);
    }
    TellsOne(events, kind, e, e, j);
    TellsOne(events, kind, e, e, k);
    SetSplit(others + {j}, Indices(events, kind));
  }

  // ----- one tip, one body of evidence -----

  lemma {:induction false} ChainLinks(row: Intent, events: seq<AuditEvent>)
    requires ChainValid(row, events)
    ensures forall i :: 0 <= i < |events| ==> LinkValid(row.id, events, i)
  {
    forall i | 0 <= i < |events| ensures LinkValid(row.id, events, i) { assert EventValid(row, events, i); }
  }

  lemma {:induction false} TipPinsRow(cfg: Config, reg1: Registry, s1: Slice, reg2: Registry, s2: Slice)
    requires Green(cfg, reg1, s1) && Green(cfg, reg2, s2)
    requires s1.intent.id == s2.intent.id && Tip(s1.events) == Tip(s2.events)
    ensures s1.events == s2.events
    ensures s2.intent == s1.intent.(requestFingerprint := s2.intent.requestFingerprint)
  {
    hide Green, RowConsistent, ReceiptsValid, ApprovalsConsistent, ReviewsConsistent, ObservationsConsistent,
         EnvelopesConsistent, ThresholdConsistent, ChainValid, LinkValid, IntentHashValid, OutcomesValid,
         AuditedStatus, Select;
    GreenParts(cfg, reg1, s1);
    GreenParts(cfg, reg2, s2);
    ChainLinks(s1.intent, s1.events);
    ChainLinks(s2.intent, s2.events);
    TipPinsHistory(s1.intent.id, s1.events, s2.events);
    HashPinsRow(cfg, s1.intent, s2.intent);
  }

  // The same row, whatever proposal its column points at.
  ghost predicate RowAmong(a: Approval, approvals: seq<Approval>) {
    exists i :: 0 <= i < |approvals| && approvals[i] == a.(intentId := approvals[i].intentId)
  }

  lemma {:induction false} TipPinsApprovals(cfg: Config, s1: Slice, s2: Slice)
    requires ReviewsAuthentic(cfg, s1) && ReviewsAuthentic(cfg, s2) && s1.events == s2.events
    ensures forall i :: 0 <= i < |s1.approvals| ==> RowAmong(s1.approvals[i], s2.approvals)
  {
    hide HumanDecision, Actors;
    forall i | 0 <= i < |s1.approvals| ensures RowAmong(s1.approvals[i], s2.approvals) {
      var a := s1.approvals[i];
      assert HasWitness(s1.events, a);
      var k :| SoleWitness(s1.events, a, k);
      assert HasRow(s2.events, s2.approvals, k);
      var j :| 0 <= j < |s2.approvals| && SoleWitness(s2.events, s2.approvals[j], k);
      SameWitness(s1.events[k], a, s2.approvals[j]);
    }
  }

  // One event matches one row.
  lemma {:induction false} SameWitness(e: AuditEvent, a: Approval, b: Approval)
    requires ReviewMatches(e, a) && ReviewMatches(e, b)
    ensures b == a.(intentId := b.intentId)
  {
  }

  lemma {:induction false} TipPinsObservations(row1: Intent, row2: Intent, a: seq<Observation>, b: seq<Observation>,
                                               events: seq<AuditEvent>)
    requires ObservationsConsistent(row1, a, events) && ObservationsConsistent(row2, b, events)
    ensures |a| == |b|
    ensures forall i :: 0 <= i < |a| ==> b[i] == a[i].(id := b[i].id, intentId := b[i].intentId)
  {
    forall i | 0 <= i < |a| ensures b[i] == a[i].(id := b[i].id, intentId := b[i].intentId) {
      var e := Select(events, IsObservation)[i];
      assert ObservationMatches(e, a[i]) && ObservationMatches(e, b[i]);
      SameObserved(e, a[i], b[i]);
    }
  }

  lemma {:induction false} SameObserved(e: AuditEvent, a: Observation, b: Observation)
    requires ObservationMatches(e, a) && ObservationMatches(e, b)
    ensures b == a.(id := b.id, intentId := b.intentId)
  {
    var fields := e.body.payload.value.fields;
    assert fields[StatusField] == ObservationText(a.status) == ObservationText(b.status);
    assert fields[ProviderReferenceField] == OptionalText(a.providerReference) == OptionalText(b.providerReference);
  }

  // The event that tells of an envelope's issue.
  lemma {:induction false} IssueTold(cfg: Config, reg: Registry, s: Slice, eid: Id)
    returns (k: int, c: Claims)
    requires EnvelopesConsistent(cfg, reg, s) && eid in s.envelopes
    ensures VerifiedClaims(cfg, reg, s.envelopes[eid].keyId, s.envelopes[eid].compact) == Some(c)
    ensures Tells(s.events, IsIssue, eid, k) && IssueMatches(s.events, k, eid, s.envelopes[eid], c)
  {
    hide VerifiedClaims, ConsumptionColumnsConsistent;
    var env := s.envelopes[eid];
    assert EnvelopeValid(cfg, reg, s.intent.id, s.events, eid, env);
    c := VerifiedClaims(cfg, reg, env.keyId, env.compact).value;
    var marks := IssueMarks(s.events, eid, env, c);
    k := OneTrue(marks);
    assert marks[k] == IssueMatches(s.events, k, eid, env, c);
  }

  // The event that tells of a consumption.
  lemma {:induction false} ConsumeTold(cfg: Config, reg: Registry, s: Slice, eid: Id)
    returns (k: int)
    requires EnvelopesConsistent(cfg, reg, s) && eid in Consumed(s.envelopes)
    ensures Tells(s.events, IsConsume, eid, k) && ConsumeMatches(s.events[k].body, eid, s.envelopes[eid])
  {
    hide VerifiedClaims, ConsumptionColumnsConsistent, IssueMarks;
    var env := s.envelopes[eid];
    assert EnvelopeValid(cfg, reg, s.intent.id, s.events, eid, env);
    var marks := ConsumeMarks(s.events, eid, env);
    k := OneTrue(marks);
    assert marks[k] == ConsumeMatches(s.events[k].body, eid, env);
  }

  lemma {:induction false} ToldEnvelopes(cfg: Config, reg: Registry, s: Slice)
    requires EnvelopesConsistent(cfg, reg, s)
    ensures forall e :: e in s.envelopes.Keys ==> Told(s.events, IsIssue, e)
    ensures forall e :: e in Consumed(s.envelopes) ==> Told(s.events, IsConsume, e)
  {
    forall e | e in s.envelopes.Keys ensures Told(s.events, IsIssue, e) { var k, c := IssueTold(cfg, reg, s, e); }
    forall e | e in Consumed(s.envelopes) ensures Told(s.events, IsConsume, e) { var k := ConsumeTold(cfg, reg, s, e); }
  }

  // One issue event matches one row, up to its consumption.
  lemma {:induction false} SameIssued(events: seq<AuditEvent>, k: nat, eid: Id, a: Envelope, c: Claims, b: Envelope,
                                      d: Claims)
    requires k < |events| && IssueMatches(events, k, eid, a, c) && IssueMatches(events, k, eid, b, d)
    ensures b == a.(intentId := b.intentId, tenantId := b.tenantId, nonceHash := b.nonceHash,
                    consumedAt := b.consumedAt, consumedBy := b.consumedBy, consumptionKey := b.consumptionKey)
  {
  }

  // The claims a row was verified with are in its compact string, and repeat its other columns.
  lemma {:induction false} ClaimsRepeat(cfg: Config, reg: Registry, s: Slice, eid: Id)
    requires EnvelopesConsistent(cfg, reg, s) && eid in s.envelopes
    ensures var env := s.envelopes[eid];
      && env.compact.Jws? && env.compact.document.ClaimsDocument?
      && env.tenantId == env.compact.document.claims.tenantId
      && env.nonceHash == OfText(env.compact.document.claims.nonce)
      && (env.consumedAt.None? ==> env.consumedBy.None? && env.consumptionKey.None?)
  {
    hide StrictClaims, IssueMarks, ConsumeMarks, TrustedJwk;
    assert EnvelopeValid(cfg, reg, s.intent.id, s.events, eid, s.envelopes[eid]);
  }

  lemma {:induction false} SameConsumed(body: EventBody, eid: Id, a: Envelope, b: Envelope)
    requires ConsumeMatches(body, eid, a) && ConsumeMatches(body, eid, b)
    ensures a.consumedAt == b.consumedAt && a.consumedBy == b.consumedBy && a.consumptionKey == b.consumptionKey
  {
  }

  // What one log says of one envelope is the same row in both stores.
  lemma {:induction false} TipPinsEnvelope(cfg: Config, reg1: Registry, s1: Slice, reg2: Registry, s2: Slice, eid: Id)
    requires EnvelopesConsistent(cfg, reg1, s1) && EnvelopesConsistent(cfg, reg2, s2) && s1.events == s2.events
    requires eid in s1.envelopes
    ensures eid in s2.envelopes
    ensures s2.envelopes[eid] == s1.envelopes[eid].(intentId := s2.envelopes[eid].intentId,
              consumedAt := s2.envelopes[eid].consumedAt, consumedBy := s2.envelopes[eid].consumedBy,
              consumptionKey := s2.envelopes[eid].consumptionKey)
  {
    hide EnvelopeValid, VerifiedClaims, IssueMatches, ConsumeMatches, Consumed;
    ToldEnvelopes(cfg, reg2, s2);
    var k, c := IssueTold(cfg, reg1, s1, eid);
    EachTells(s2.events, IsIssue, s2.envelopes.Keys, k);
    var e :| e in s2.envelopes.Keys && Tells(s2.events, IsIssue, e, k);
    TellsOne(s2.events, IsIssue, e, eid, k);
    var j, d := IssueTold(cfg, reg2, s2, eid);
    ToldOnce(s2.events, IsIssue, s2.envelopes.Keys, eid, j, k);
    SameIssued(s1.events, k, eid, s1.envelopes[eid], c, s2.envelopes[eid], d);
    ClaimsRepeat(cfg, reg1, s1, eid);
    ClaimsRepeat(cfg, reg2, s2, eid);
  }

  lemma {:induction false} TipPinsConsumption(cfg: Config, reg1: Registry, s1: Slice, reg2: Registry, s2: Slice,
                                              eid: Id)
    requires EnvelopesConsistent(cfg, reg1, s1) && EnvelopesConsistent(cfg, reg2, s2) && s1.events == s2.events
    requires eid in Consumed(s1.envelopes)
    ensures eid in Consumed(s2.envelopes)
    ensures s2.envelopes[eid].consumedAt == s1.envelopes[eid].consumedAt
    ensures s2.envelopes[eid].consumedBy == s1.envelopes[eid].consumedBy
    ensures s2.envelopes[eid].consumptionKey == s1.envelopes[eid].consumptionKey
  {
    hide EnvelopeValid, ConsumeMatches, Consumed;
    ToldEnvelopes(cfg, reg2, s2);
    var k := ConsumeTold(cfg, reg1, s1, eid);
    EachTells(s2.events, IsConsume, Consumed(s2.envelopes), k);
    var e :| e in Consumed(s2.envelopes) && Tells(s2.events, IsConsume, e, k);
    TellsOne(s2.events, IsConsume, e, eid, k);
    var j := ConsumeTold(cfg, reg2, s2, eid);
    ToldOnce(s2.events, IsConsume, Consumed(s2.envelopes), eid, j, k);
    ConsumedIn(s1.envelopes, eid);
    ConsumedIn(s2.envelopes, eid);
    SameConsumed(s1.events[k].body, eid, s1.envelopes[eid], s2.envelopes[eid]);
  }

  lemma {:induction false} ConsumedIn(envelopes: map<Id, Envelope>, eid: Id)
    ensures eid in Consumed(envelopes) <==> eid in envelopes && envelopes[eid].consumedAt.Some?
  {
  }

  lemma {:induction false} TipPinsEnvelopes(cfg: Config, reg1: Registry, s1: Slice, reg2: Registry, s2: Slice)
    requires EnvelopesConsistent(cfg, reg1, s1) && EnvelopesConsistent(cfg, reg2, s2) && s1.events == s2.events
    ensures s1.envelopes.Keys == s2.envelopes.Keys
    ensures forall e :: e in s1.envelopes ==>
      s2.envelopes[e] == s1.envelopes[e].(intentId := s2.envelopes[e].intentId)
  {
    hide EnvelopesConsistent, Consumed;
    forall e | e in s2.envelopes ensures e in s1.envelopes { TipPinsEnvelope(cfg, reg2, s2, reg1, s1, e); }
    forall e | e in s1.envelopes
      ensures e in s2.envelopes && s2.envelopes[e] == s1.envelopes[e].(intentId := s2.envelopes[e].intentId)
    {
      TipPinsEnvelope(cfg, reg1, s1, reg2, s2, e);
      ConsumedIn(s1.envelopes, e);
      ConsumedIn(s2.envelopes, e);
      ClaimsRepeat(cfg, reg1, s1, e);
      ClaimsRepeat(cfg, reg2, s2, e);
      if s1.envelopes[e].consumedAt.Some? { TipPinsConsumption(cfg, reg1, s1, reg2, s2, e); }
      if s2.envelopes[e].consumedAt.Some? { TipPinsConsumption(cfg, reg2, s2, reg1, s1, e); }
    }
  }

  // Two green reports on one proposal under one configuration, over tables of any content: if the
  // chains end in the same hash, then the logs, the proposals, the approvals, the observations and
  // the envelopes with their consumption are the same. Only what no check reads may differ: the
  // request's fingerprint, the parent columns, and an observation's own id.
  lemma {:induction false} TipPinsEvidence(cfg: Config, reg1: Registry, s1: Slice, reg2: Registry, s2: Slice)
    requires Green(cfg, reg1, s1) && Green(cfg, reg2, s2)
    requires s1.intent.id == s2.intent.id && Tip(s1.events) == Tip(s2.events)
    ensures s1.events == s2.events
    ensures s2.intent == s1.intent.(requestFingerprint := s2.intent.requestFingerprint)
    ensures |s1.approvals| == |s2.approvals|
    ensures forall i :: 0 <= i < |s1.approvals| ==> RowAmong(s1.approvals[i], s2.approvals)
    ensures forall i :: 0 <= i < |s2.approvals| ==> RowAmong(s2.approvals[i], s1.approvals)
    ensures |s1.observations| == |s2.observations|
    ensures forall i :: 0 <= i < |s1.observations| ==>
      s2.observations[i]
      == s1.observations[i].(id := s2.observations[i].id, intentId := s2.observations[i].intentId)
    ensures s1.envelopes.Keys == s2.envelopes.Keys
    ensures forall e :: e in s1.envelopes ==>
      s2.envelopes[e] == s1.envelopes[e].(intentId := s2.envelopes[e].intentId)
  {
    hide Green, RowConsistent, ReceiptsValid, ApprovalsConsistent, ObservationsConsistent, EnvelopesConsistent,
         ChainValid, IntentHashValid, InitialEventConsistent, InitialTenantStateConsistent, StatusConsistent,
         ThresholdConsistent, ReviewsAuthentic, Decided, RowAmong, ReviewMarks, Select;
    GreenParts(cfg, reg1, s1);
    GreenParts(cfg, reg2, s2);
    GreenMeansDecided(cfg, reg1, s1);
    GreenMeansDecided(cfg, reg2, s2);
    TipPinsRow(cfg, reg1, s1, reg2, s2);
    TipPinsApprovals(cfg, s1, s2);
    TipPinsApprovals(cfg, s2, s1);
    TipPinsObservations(s1.intent, s2.intent, s1.observations, s2.observations, s1.events);
    TipPinsEnvelopes(cfg, reg1, s1, reg2, s2);
  }

  // ----- the registry and the root -----

  // Two registries that verify under the same checkpoint hold the same rows.
  lemma {:induction false} CheckpointPinsKeys(cfg: Config, reg1: Registry, reg2: Registry)
    requires RegistryValid(cfg, reg1) && RegistryValid(cfg, reg2) && reg1.checkpoint == reg2.checkpoint
    ensures reg1.rows == reg2.rows
    ensures forall k :: k in reg1.rows ==>
      && reg1.rows[k].jwk.Jwk?
      && reg1.rows[k].attestation
           == Hmac(cfg.receiptSecret, KeyAttestation(k, reg1.rows[k].jwk, reg1.rows[k].createdAt))
  {
  }

  // A database founded under one configuration starts under another exactly when tenant, secret,
  // issuer, audience, envelope lifetime, authentication mode, trust domain and policy agree.
  lemma {:induction false} RootPinsConfig(cfg: Config, other: Config, reg: Registry, history: bool)
    requires RegistryInv(cfg, reg) && reg.root.Some?
    ensures InitializeSchema(other, reg, history) == Ok(reg) <==>
      && other.receiptSecret == cfg.receiptSecret && other.tenantId == cfg.tenantId
      && other.issuer == cfg.issuer && other.audience == cfg.audience
      && other.envelopeTtlSeconds == cfg.envelopeTtlSeconds
      && other.oidc == cfg.oidc && other.trustDomain == cfg.trustDomain && other.policy == cfg.policy
    ensures other != cfg ==> InitializeSchema(other, reg, history) == Err(ReceiptKeyMismatch)
  {
  }
}
