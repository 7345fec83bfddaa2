// The signing-key registry: the integrity root, the attested key rows and the
// checkpoint over all of them, as the two startup transactions leave them.
module SigningKeys {
  import opened Basics
  import opened Evidence
  import opened Integrity
  import opened Operations
  import opened EnvelopeLife

  function RootMac(cfg: Config): Mac {
    Hmac(cfg.receiptSecret,
         IntegrityRoot(cfg.tenantId, cfg.issuer, cfg.audience, cfg.envelopeTtlSeconds, cfg.oidc, cfg.trustDomain,
                       ConfigDigest(cfg)))
  }

  function CheckpointMac(cfg: Config, rows: map<string, KeyRow>): Mac {
    Hmac(cfg.receiptSecret, RegistryState(rows))
  }

  function NewKeyRow(cfg: Config, signer: SigningKey, at: int): KeyRow {
    KeyRow(PublicHalf(signer), at, Hmac(cfg.receiptSecret, KeyAttestation(signer.keyId, PublicHalf(signer), at)))
  }

  // preflightReceiptIntegrity and initializeSchema on a v3 or empty database.
  // history: some material table holds a row.
  ghost function InitializeSchema(cfg: Config, reg: Registry, history: bool): Result<Registry> {
    if reg.root.Some? then
      if reg.root.value != RootMac(cfg) then Err(ReceiptKeyMismatch)
      else if !RegistryValid(cfg, reg) then Err(SigningKeyIntegrityFailure)
      else Ok(reg)
    else if history || reg.rows != map[] || reg.checkpoint.Some? then Err(TrustRootMissing)
    else Ok(Registry(map[], Some(RootMac(cfg)), Some(CheckpointMac(cfg, map[]))))
  }

  // registerEnvelopeSigningKey
  ghost function RegisterKey(cfg: Config, reg: Registry, signer: SigningKey, at: int): Result<Registry> {
    if !RegistryValid(cfg, reg) then Err(SigningKeyIntegrityFailure)
    else if signer.keyId in reg.rows then
      if reg.rows[signer.keyId].jwk == PublicHalf(signer) then Ok(reg) else Err(SigningKeyConflict)
    else
      var rows := reg.rows[signer.keyId := NewKeyRow(cfg, signer, at)];
      Ok(reg.(rows := rows, checkpoint := Some(CheckpointMac(cfg, rows))))
  }

  // What startup finds: nothing at all, or a root, attested rows and their checkpoint.
  ghost predicate RegistryInv(cfg: Config, reg: Registry) {
    reg == Registry(map[], None, None)
    || (reg.root == Some(RootMac(cfg)) && RegistryValid(cfg, reg))
  }

  ghost predicate KeyConflicts(reg: Registry, signer: SigningKey) {
    signer.keyId in reg.rows && reg.rows[signer.keyId].jwk != PublicHalf(signer)
  }

  // One start: the first transaction always commits; the second fails exactly on a reused key id.
  lemma {:induction false} StartupOutcome(cfg: Config, reg: Registry, history: bool, signer: SigningKey, at: int)
    requires RegistryInv(cfg, reg) && (history ==> reg.root.Some?)
    ensures InitializeSchema(cfg, reg, history).Ok?
    ensures var first := InitializeSchema(cfg, reg, history).value;
      && RegistryInv(cfg, first) && RegistryValid(cfg, first) && first.rows == reg.rows
      && (RegisterKey(cfg, first, signer, at).Ok? <==> !KeyConflicts(reg, signer))
      && (RegisterKey(cfg, first, signer, at).Ok? ==>
            var second := RegisterKey(cfg, first, signer, at).value;
            && RegistryInv(cfg, second) && RegistryGrows(reg, second) && KeyRegistered(cfg, second, signer)
            && second.rows.Keys == reg.rows.Keys + {signer.keyId})
  {
  }

  // A registration under any registry: one that does not verify is refused, a known key id is found or
  // conflicts, and a new one joins attested under a checkpoint of all rows, root and other rows kept.
  lemma {:induction false} RegistrationAnswers(cfg: Config, reg: Registry, signer: SigningKey, at: int)
    ensures var r := RegisterKey(cfg, reg, signer, at);
      var jwk := Jwk(signer.keyId, signer.keyPair);
      && (r == Err(SigningKeyIntegrityFailure) <==> !RegistryValid(cfg, reg))
      && (RegistryValid(cfg, reg) && signer.keyId in reg.rows ==>
            r == if reg.rows[signer.keyId].jwk == jwk then Ok(reg) else Err(SigningKeyConflict))
      && (RegistryValid(cfg, reg) && signer.keyId !in reg.rows ==>
            && r.Ok? && r.value.root == reg.root
            && r.value.rows == reg.rows[signer.keyId :=
                 KeyRow(jwk, at, Hmac(cfg.receiptSecret, KeyAttestation(signer.keyId, jwk, at)))]
            && r.value.checkpoint == Some(Hmac(cfg.receiptSecret, RegistryState(r.value.rows))))
  {
    hide RegistryValid;
  }

  // The first startup transaction under any registry: a foreign root, a registry that does not verify,
  // and anything at all without a root are refused; an empty database is founded.
  lemma {:induction false} SchemaAnswers(cfg: Config, reg: Registry, history: bool)
    ensures var r := InitializeSchema(cfg, reg, history);
      var root := Hmac(cfg.receiptSecret,
        IntegrityRoot(cfg.tenantId, cfg.issuer, cfg.audience, cfg.envelopeTtlSeconds, cfg.oidc, cfg.trustDomain,
                      OfPolicyConfig(cfg.policy)));
      && (reg.root.Some? && reg.root.value != root ==> r == Err(ReceiptKeyMismatch))
      && (reg.root == Some(root) ==>
            r == if RegistryValid(cfg, reg) then Ok(reg) else Err(SigningKeyIntegrityFailure))
      && (reg.root.None? && (history || reg.rows != map[] || reg.checkpoint.Some?) ==> r == Err(TrustRootMissing))
      && (reg == Registry(map[], None, None) && !history ==>
            r == Ok(Registry(map[], Some(root), Some(Hmac(cfg.receiptSecret, RegistryState(map[]))))))
  {
    hide RegistryValid;
  }

  // ----- any sequence of starts -----

  datatype Start = Start(signer: SigningKey, at: int, stopsBetween: bool)

  // The registry one start leaves behind, whatever it raised.
  ghost function AfterStart(cfg: Config, reg: Registry, history: bool, start: Start): Registry {
    var first := InitializeSchema(cfg, reg, history);
    if first.Err? then reg
    else if start.stopsBetween then first.value
    else
      var second := RegisterKey(cfg, first.value, start.signer, start.at);
      if second.Ok? then second.value else first.value
  }

  ghost function AfterStarts(cfg: Config, reg: Registry, history: bool, starts: seq<Start>): Registry {
    if starts == [] then reg
    else AfterStart(cfg, AfterStarts(cfg, reg, history, starts[..|starts| - 1]), history, Last(starts))
  }

  lemma {:induction false} OneStart(cfg: Config, reg: Registry, history: bool, start: Start)
    requires RegistryInv(cfg, reg) && (history ==> reg.root.Some?)
    ensures var now := AfterStart(cfg, reg, history, start);
      && RegistryInv(cfg, now) && RegistryGrows(reg, now) && (history ==> now.root.Some?)
      && (forall k :: k in now.rows ==> k in reg.rows || k == start.signer.keyId)
  {
    StartupOutcome(cfg, reg, history, start.signer, start.at);
  }

  lemma {:induction false} Checkpointed(cfg: Config, reg: Registry)
    requires RegistryInv(cfg, reg)
    ensures reg.root.Some? ==> reg.checkpoint == Some(CheckpointMac(cfg, reg.rows))
  {
  }

  // Over any restarts under one configuration the registry keeps every row, stays
  // attested under a checkpoint of all rows, and the next start fails only on a reused id.
  lemma {:induction false} RegistryOnlyGrows(cfg: Config, reg: Registry, history: bool, starts: seq<Start>,
                                             next: SigningKey, at: int)
    requires RegistryInv(cfg, reg) && (history ==> reg.root.Some?)
    ensures var now := AfterStarts(cfg, reg, history, starts);
      && RegistryInv(cfg, now) && RegistryGrows(reg, now) && (history ==> now.root.Some?)
      && (now.root.Some? ==> now.checkpoint == Some(CheckpointMac(cfg, now.rows)))
      && (forall k :: k in now.rows ==> k in reg.rows || exists i :: 0 <= i < |starts| && starts[i].signer.keyId == k)
      && InitializeSchema(cfg, now, history).Ok?
      && (RegisterKey(cfg, InitializeSchema(cfg, now, history).value, next, at).Ok? <==> !KeyConflicts(now, next))
  {
    hide RegistryInv, RegistryValid, InitializeSchema, RegisterKey, AfterStart, KeyConflicts;
    var now := AfterStarts(cfg, reg, history, starts);
    if starts != [] {
      var n := |starts| - 1;
      var before := AfterStarts(cfg, reg, history, starts[..n]);
      RegistryOnlyGrows(cfg, reg, history, starts[..n], starts[n].signer, starts[n].at);
      OneStart(cfg, before, history, starts[n]);
      forall k | k in now.rows && k !in reg.rows ensures exists i :: 0 <= i < |starts| && starts[i].signer.keyId == k {
        if k in before.rows {
          var i :| 0 <= i < n && starts[..n][i].signer.keyId == k;
          assert starts[i].signer.keyId == k;
        } else {
          assert starts[n].signer.keyId == k;
        }
      }
    }
    Checkpointed(cfg, now);
    StartupOutcome(cfg, now, history, next, at);
  }
}
