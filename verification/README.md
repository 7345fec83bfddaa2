# Parimit, verified

Parimit records payment proposals, has policy and people decide them, and issues signed evidence of
the decision. It never moves money. What it sells is that the evidence is right: an append-only log
per proposal, receipts for every human decision, and envelopes that verify for exactly as long as they
should. This project models the code that keeps those promises and proves them.

## What is modelled

**The authorization ledger** (`src/service.ts`), the core.

- `Evidence`, `Integrity`, `Operations`, `Exposure`, `SigningKeys`, `Store`, `Calls` are the
  specification: rows and documents, `verifyIntegrity` as a predicate (`Green`), what each operation does
  to one proposal's evidence, and each transaction and public call as a function of the stored world, the
  request and every clock reading it takes. Digests, MACs and signatures are symbolic terms.
- `IntegrityChecker` is `verifyIntegrity` as it is written: loops over rows and events with running
  variables and a failure list, proved to return exactly that predicate on rows of any content.
- `Tables` and `Service` are `ParimitService` as a class over its five tables. Each transaction changes
  the tables in place and rolls back whole; every method is tied to the operation of the same name, for
  any consistent tables, tampered rows included.
- `Invariant`, `Preservation`, `EnvelopeLife`, `Runs`, `Evolution` carry the invariant over every run of
  operations, sweeps and restarts under an arbitrary clock.
- `Soundness` and `Pinned` say what a valid report means on tables of any content, up to the theorem that one chain
  tip fixes all the evidence. `Outcomes`, `Proposals` and `EnvelopeOutcomes` say in terms of stored columns when each
  operation succeeds and what it writes; `Authority` traces everything stored back to who asked for it.
  `Guarantees`, `DailyLimit` and `Journey` state what callers may rely on over time.

**Canonical JSON** (`src/crypto.ts`): `Json`, `CanonicalJson`, `CanonicalText`, `CanonicalMeaning`.

**The compact JWS codec** (`src/envelope.ts`): `Utf8`, `Base64Url`, `JwsCodec`, `JwsSize`. Its one-spelling
theorem is why `Evidence` may treat a compact string as its (key id, payload, signature) triple; `EnvelopeDocument`
and `EnvelopeFits` show that every triple the ledger stores does have a string, one the verifier reads, and
`EnvelopeMeaning` that its document says what the claims say and determines them.

**The PostgreSQL slice** (`src/storage`): `PoolRetry` (the retry loop), `AuditAppenders` (interleaved
appends under stale snapshots), `CreateOrReplay` (interleaved idempotent creations).

**The AiNxt turn parser** (`integrations/ainxt/adapter.ts`): `SseTurn`, `SseFrames`.

`Basics`, `Ordering` and `Counting` are shared. Every lemma turns automatic induction off, so each proof
is the one that is written.

## Findings

- The daily limit holds over every run exactly as long as the two clock readings inside one `createIntent`
  do not fall back across a UTC midnight: `DailyLimit.DailyLimitHolds` proves it, and for every pair of
  readings that does fall back `DailyLimit.BackwardReadBreaksLimit` gives a run that doubles the limit.
- Signing has no size limit and verifying has. A signed payload verifies exactly when the letters its header,
  its canonical text and a 64-byte signature take come to at most 65,536 (`JwsSize.SignedFits`), and an object with
  one string of 70,000 letters signs to a string that is refused under every key (`JwsSize.LongSignedRejected`).
  Envelopes never get there: `EnvelopeFits.StoredEnvelopeFits` proves it from the limits on their fields.
- The intent hash does not cover the request's fingerprint, so a valid report does not vouch for it: it is the one
  column of a proposal that `Pinned.TipPinsEvidence` has to leave out.
- A consumed envelope replays at every later clock reading except when the first reading inside
  `consumeAuthorizationEnvelope` is past its expiry and the second one is back before it
  (`Guarantees.ConsumptionReplays`).

## Model

| member | source | states |
|---|---|---|
| Runs.EveryRunIsGreen | src/service.ts:2775-3282 | in every world reachable from an empty database by any operations, restarts and clock readings, `verifyIntegrity` is valid for every proposal |
| Runs.ReachableInv | src/service.ts:1154-1164 | every reachable store satisfies the invariant |
| Runs.RunKeeps | src/service.ts:1154-1164 | the invariant of the whole store survives any run of operations |
| Runs.SweepNeverBlocked | src/service.ts:1271-1282 | appendAudit's rollback guard never stops the expiry sweep, because every event of an awaiting proposal precedes its deadline |
| Preservation.CreationEstablishes | src/service.ts:1388-1472 | a created proposal, allowed or denied, passes the whole check and starts the lifecycle |
| Preservation.ReadBackPayload | src/service.ts:1185-1231 | the document rebuilt from the stored row is the one that was hashed when it was written |
| Preservation.DecidedReasonsConsistent | src/service.ts:1346-1376 | the reasons the policy gives are distinct, name dual approval exactly above the threshold and human approval up to it, and include a denial exactly when it denies |
| Preservation.ReviewKeeps | src/service.ts:1644-1748 | an approval or rejection keeps the invariant |
| Preservation.TerminalKeeps | src/service.ts:1783-1818 | a cancellation or expiry keeps the invariant |
| Preservation.ObserveKeeps | src/service.ts:2684-2724 | a mock observation keeps the invariant |
| Preservation.LatestIsLast | src/service.ts:1504-1510 | ordering by time and rowid finds the last inserted observation, because event times never decrease |
| EnvelopeLife.IssuedClaimsStrict | src/service.ts:2310-2320 | the claims built for a new envelope always pass the strict check, so "failed internal validation" is unreachable |
| EnvelopeLife.LifetimeExact | src/service.ts:2258-2286 | flooring to seconds leaves `exp - iat` exactly the requested lifetime and the order of issue, expiry and deadline |
| EnvelopeLife.IssueKeeps | src/service.ts:2207-2414 | issuing an envelope keeps the invariant |
| EnvelopeLife.ConsumeKeeps | src/service.ts:2593-2662 | consuming an envelope keeps the invariant |
| EnvelopeLife.RegistryKeeps | src/service.ts:1131-1139 | a registry that only gained keys leaves every proposal's evidence valid |
| Soundness.GreenMeansAuthorized | src/service.ts:2860-2907 | on tables of any content, a valid report on an AUTHORIZED_NO_DISPATCH proposal means: policy allowed it, at least the required number of distinct non-agent people hold authentic, timely APPROVE receipts over this intent hash, each told by exactly one event, status and version are what the log says |
| Soundness.GreenMeansDecided | src/service.ts:3233-3271 | for every status, on tables of any content: every row is an authentic human decision the log tells of one to one; CANCELLED, EXPIRED and AWAITING_APPROVAL mean only approvals and fewer than required, REJECTED one rejection and fewer approvals than required, POLICY_DENIED no row and a denying policy, and any observation an authorized proposal |
| Soundness.GreenReasons | src/service.ts:2833-2858 | the stored reasons are distinct, name the one approval rule the requirement asks for, and stand alone exactly when the policy allowed |
| Soundness.GreenFirstEvent | src/service.ts:2967-2996 | the first event records the decision the row records, at its creation |
| Soundness.GreenChronology | src/service.ts:2946-2965 | every event parses, belongs to the proposal and stands no earlier than any before it, and at most one ends it |
| Soundness.GreenReviewEvent | src/service.ts:3006-3025 | each decision is told by one event with person, role, moment, intent hash and receipt |
| Soundness.GreenOutcomes | src/service.ts:3199-3222 | what a review event says it led to is a status a review can lead to |
| Soundness.GreenObservations | src/service.ts:3044-3093 | each observation is told of by its own event in order, and IN_DOUBT can only be the last |
| Soundness.GreenEnvelopes | src/service.ts:3164-3190 | each envelope is what an attested key signed under its own id, with the claims' columns, consumed inside its lifetime if at all |
| Soundness.GreenIssueEvent | src/service.ts:3113-3140 | its issue is told at the position in its claims, with every column, and there are as many issue events as envelopes |
| Soundness.GreenConsumeEvent | src/service.ts:3148-3197 | its consumption is told by one event, and there are as many consume events as consumed envelopes |
| Soundness.ReviewEventsHaveRows | src/service.ts:2998-3025 | every review event in a consistent log is told of by exactly one signed row |
| Soundness.TipPinsHistory | src/service.ts:2936-2965 | two verified chains of one proposal with the same tip are the same events |
| Soundness.SourceAuditPinsLog | src/service.ts:2291-2301 | the event count and tip inside an envelope determine the whole log before its issue |
| Soundness.IssuePosition | src/service.ts:3118-3140 | the envelope's recorded position is where its issue event stands |
| Pinned.TipPinsEvidence | src/service.ts:2775-3282 | two valid reports on one proposal whose chains end in the same hash, on tables of any content: the same log, proposal, approvals, observations and envelopes with their consumption; only cells no check reads may differ |
| Pinned.HashPinsRow | src/service.ts:1185-1231 | the intent hash fixes every column but the request's fingerprint, the status and its version |
| Pinned.CheckpointPinsKeys | src/service.ts:831-905 | two registries that verify under one checkpoint hold the same attested rows |
| Pinned.RootPinsConfig | src/service.ts:960-978 | a database founded under one configuration starts under another exactly when every bound setting agrees |
| IntegrityChecker.VerifySlice | src/service.ts:2775-3282 | the imperative check returns each of the four flags exactly as specified, and a duplicate-free failure list that is empty iff the report is valid; what the flags mean for rows, receipts and events is the `Soundness` and `Pinned` results |
| IntegrityChecker.CheckReasons | src/service.ts:2842-2858 | the reason checks accept exactly the reason lists that fit the decision |
| IntegrityChecker.CheckApprovals | src/service.ts:2860-2907 | the approval loop finds whether all receipts and all rows are valid, and counts the valid APPROVE and REJECT rows |
| IntegrityChecker.CheckChain | src/service.ts:2909-2965 | the event loop accepts exactly the chains from GENESIS that hash, link and do not run backwards |
| IntegrityChecker.CheckReviews | src/service.ts:3006-3025 | accepted exactly when reviews and rows are equally many and each row has exactly one matching event |
| IntegrityChecker.CheckObservations | src/service.ts:3027-3093 | accepted exactly when rows and events match pairwise and nothing follows IN_DOUBT |
| IntegrityChecker.CheckEnvelopes | src/service.ts:3095-3197 | accepted exactly when every envelope is signed, bound, and matched by one issue event and by a consume event iff consumed |
| IntegrityChecker.CheckStatus | src/service.ts:3199-3231 | the status fold and the version count agree with the row exactly when the log says so |
| IntegrityChecker.CheckThreshold | src/service.ts:3233-3271 | the final rules hold exactly when status, policy and valid counts fit together, which `Soundness.GreenMeansDecided` spells out status by status |
| IntegrityChecker.CheckRegistry | src/service.ts:899-904 | accepted exactly when every key row is attested and the checkpoint covers them all |
| IntegrityChecker.VerifyClaims | src/service.ts:1891-2147 | claims come back exactly from a string a trusted key signed over a strict document |
| Guarantees.AuthorizedExactlyAtThreshold | src/service.ts:1706-1733 | in every reachable store a proposal is authorized exactly when its APPROVE rows reach the requirement, at version one more than that, with at most one envelope |
| Guarantees.DecisionsAreFinal | src/service.ts:1654-1660 | once a proposal has left AWAITING_APPROVAL no later run changes its status, version or approvals |
| Guarantees.SweepExpiresTheDue | src/service.ts:1304-1327 | the sweep completes, leaves no overdue proposal, adds exactly one PROPOSAL_EXPIRED event to each that was, and touches no other |
| Guarantees.LateDecisionExpires | src/service.ts:1661-1679 | a review at or past the deadline by anyone who may review, and an admin's cancellation, commits the expiry and fails |
| Guarantees.LateCancelExpires | src/service.ts:1783-1801 | a cancellation at or past the deadline, by the requesting agent or any admin, commits the expiry and fails |
| Outcomes.ReviewRefusesOutright | src/service.ts:1630-1646 | whatever the store holds, a malformed name, an agent's or a consumer's role, and an unknown proposal each get their own error and change nothing |
| Outcomes.ReviewAnswers | src/service.ts:1644-1748 | in a reachable store a review by an approver or admin is accepted exactly when it is in time, by neither the agent nor a previous reviewer, and not behind the log; then one signed row, the status it leads to and one event are on file |
| Outcomes.CancelRefusesOutright | src/service.ts:1761-1776 | whatever the store holds, an approver's or consumer's role is forbidden and another agent's proposal is not found |
| Outcomes.CancelAnswers | src/service.ts:1767-1818 | a cancellation by the requesting agent or an admin is accepted exactly when the proposal is waiting, in time, and not behind the log; then status, version and one event are on file |
| Outcomes.ObserveRefusesOutright | src/service.ts:2671-2685 | whatever the store holds, an unlisted status and an empty or long reference are invalid, and an unknown proposal is not found |
| Outcomes.ObserveAnswers | src/service.ts:2684-2724 | an observation is accepted exactly when the proposal is authorized, none before said IN_DOUBT, and it is not behind the log; then the status, reference and moment given are what is stored |
| Outcomes.TamperedStops | src/service.ts:2753-2773 | on tables of any content, a proposal whose evidence does not hold up stops every review, cancellation and observation with nothing changed, a row its hash does not cover being named as such |
| Outcomes.TamperedIssueStops | src/service.ts:2207-2209 | and every request for an envelope |
| Outcomes.SweepAllOrNothing | src/service.ts:1304-1327 | on tables of any content, the sweep stops and changes nothing exactly if some overdue proposal has a later creation or event |
| Outcomes.RestartAnswers | src/service.ts:500-520 | a start changes no proposal, keeps every key row, and brings the service up exactly if it was not interrupted and its key id is not another key's |
| Proposals.CreateAnswers | src/service.ts:1346-1472 | under a fresh key a malformed proposal is refused, a taken row id fails, and otherwise the row holds the request, its deadline and each policy rule's verdict, two approvals exactly above the dual threshold among them |
| Proposals.CreateAgainAnswers | src/service.ts:1396-1412 | under a used key the stored proposal comes back exactly if every member of the request is the same, and the request conflicts otherwise; nothing changes |
| Proposals.EveryRowFollowsPolicy | src/service.ts:1346-1472 | in every reachable store each proposal is what the policy made of its request at the exposure its first event records, and no agent has two under one key |
| Proposals.DualApprovalHolds | src/service.ts:1363-1366 | in every reachable store an authorized proposal carries two approvals by different people above the dual threshold and one up to it, none by the agent |
| Proposals.LowerCaseLetters | src/service.ts:1350 | payees are compared with their letters in lower case and every other character as it is |
| Authority.EverythingWasAskedFor | src/service.ts:1624-2726 | over any run, every stored proposal, approval, cancellation, observation, envelope and consumption goes back to one operation of the run with these values, made in a role that may make it |
| Guarantees.InDoubtIsForever | src/service.ts:2694-2701 | after a stored IN_DOUBT, no run under any clock adds an observation |
| Guarantees.StoredVerifies | src/service.ts:2418-2548 | a stored envelope verifies for its audience at exactly the seconds in [iat, exp), and otherwise time is the only complaint; the verdict always reports the stored consumption |
| Guarantees.EnvelopeKeepsVerifying | src/service.ts:2454-2466 | that stays so through every later run, key rotation included, under unchanged bytes |
| Guarantees.ValidMeansIssued | src/service.ts:2477-2548 | on tables of any content, a valid verdict means this tenant stores these very bytes, for its authorized proposal whose document, approvals and version are the claimed ones, and exactly one event tells of them |
| Guarantees.IssueGrantsExactLifetime | src/service.ts:2191-2416 | an accepted request leaves one envelope of exactly the requested lifetime inside the deadline; a repeat changes nothing |
| EnvelopeOutcomes.IssueRefusesOutright | src/service.ts:2197-2206 | whatever the store holds, a foreign audience, input out of bounds, an agent's or consumer's role, and an unknown proposal each get their own error and change nothing |
| EnvelopeOutcomes.IssueAnswers | src/service.ts:2207-2416 | a first request is accepted exactly when the proposal is authorized, the lifetime ends by its deadline, nothing on file is later and the drawn id and nonce are unused; then one signed envelope with claims that repeat configuration, proposal, ordered approvals and log is on file |
| EnvelopeOutcomes.IssueAgainAnswers | src/service.ts:2226-2255 | a later request changes nothing: the key and lifetime on file get the envelope's id back, every other pair conflicts |
| EnvelopeOutcomes.ConflictMeansOnFile | src/service.ts:2223-2255 | on tables of any content, a request conflicts only with an envelope of this tenant for the same proposal, version and audience, asked for under another key or lifetime |
| EnvelopeOutcomes.StrictTells | src/service.ts:1891-2147 | what the strict check lets through, column by column: one authorized proposal, a lifetime inside its deadline, one or two approvals by different people in order |
| EnvelopeOutcomes.VerdictTells | src/service.ts:2418-2548 | on any string and any store: unsigned or malformed claims fail at once and alone; otherwise each fault is listed once, in order, exactly when it is one, and the verdict is valid exactly when none is |
| EnvelopeOutcomes.VerdictOnFile | src/service.ts:2467-2548 | claims whose id is on file were issued here exactly if these bytes are the stored ones, and the verdict reports the recorded consumption |
| EnvelopeOutcomes.VerdictOnTables | src/service.ts:2470-2497 | on tables of any content with one row for each id, claims were issued here exactly if the row is this tenant's and holds these bytes and their two hashes; another tenant's row is not reported |
| EnvelopeOutcomes.ConsumeRefusesOutright | src/service.ts:2558-2568 | whatever the store holds, an agent's or approver's role is forbidden, and malformed names, audiences and keys are invalid input |
| EnvelopeOutcomes.ConsumeRefusesForeign | src/service.ts:2569-2592 | whatever the store holds, another audience or bytes stored nowhere are invalid and change nothing |
| EnvelopeOutcomes.ConsumeAnswers | src/service.ts:2569-2664 | an unconsumed envelope is consumed exactly when verification and consumption fall in its lifetime and nothing on file is later; then consumer, key and moment are on file with one event, and late or early presentations get their own errors |
| Guarantees.ConsumedAtMostOnce | src/service.ts:3141-3162 | exactly one consume event per consumed envelope, between its issue and its expiry |
| Guarantees.ConsumeRecords | src/service.ts:2612-2662 | a first accepted consumption records caller, key and time, adds one event, and happened inside the lifetime |
| Guarantees.ConsumptionReplays | src/service.ts:2593-2611 | after consumption, in every later world the same caller and key get the same record and every other pair is refused, nothing changing; with the one exception of readings that fall back across expiry |
| Evolution.RunEvolves | src/service.ts:1256-1302 | over any run logs, approvals and observations only grow, keys keep their rows, and each envelope is consumed at most once with its other columns fixed |
| DailyLimit.DailyLimitHolds | src/service.ts:1329-1356 | for every agent and UTC day, the amounts of its allowed rows created that day and still AWAITING_APPROVAL or AUTHORIZED_NO_DISPATCH add up to at most the daily limit, in any run whose creations do not read the clock back across midnight |
| DailyLimit.BackwardReadBreaksLimit | src/service.ts:1419-1426 | for every pair of readings that does fall back, a concrete run reaches twice the limit |
| DailyLimit.StoredRowAdds | src/service.ts:1329-1344 | a stored row adds its amount to its own agent's day if it is allowed and waiting or authorized, and nothing to any other total |
| DailyLimit.DecisionMovesTotal | src/service.ts:1340 | an approval leaves every total as it is; a rejection, cancellation or expiry takes the row's amount off its day |
| Exposure.DailyExposureIs | src/service.ts:1329-1344 | the exposure is the plain sum over the agent's allowed rows since UTC midnight that are waiting or authorized |
| Journey.ReviewNeverFailsInternally | src/service.ts:2753-2773 | in a reachable store a review never fails for lack of integrity |
| Journey.CancelNeverFailsInternally | src/service.ts:2753-2773 | nor does a cancellation |
| Journey.ObserveNeverFailsInternally | src/service.ts:2753-2773 | nor does an observation |
| Journey.IssueNeverFailsInternally | src/service.ts:2207-2416 | nor does issuing, replays included: none of its four internal errors can be raised |
| Journey.ConsumeNeverFailsInternally | src/service.ts:2569-2664 | nor does consuming |
| Journey.AllowedProposalCanBeConsumed | src/service.ts:1388-2664 | in any reachable store a proposal within the limits, accepted in order and in time by two different people above the dual threshold and one up to it, issued and presented in time under fresh ids, goes through every call to a consumed envelope |
| SigningKeys.StartupOutcome | src/service.ts:960-1016 | the first startup transaction commits, the second fails exactly on a key id registered for another key |
| SigningKeys.RegistryOnlyGrows | src/service.ts:1069-1129 | over any restarts, interrupted ones included, rows are kept, the checkpoint is the MAC of all of them, and startup fails exactly on a reused key id |
| SigningKeys.RegistrationAnswers | src/service.ts:1069-1129 | under any registry: one that does not verify is refused, a known key id is found or conflicts, a new one joins attested under a checkpoint of all rows |
| SigningKeys.SchemaAnswers | src/service.ts:960-1067 | under any registry: a foreign root, an invalid registry and anything at all without a root are refused, an empty database is founded |
| Calls.CallKeeps | src/service.ts:1388-1393 | whatever holds of every run holds after every public call |
| Calls.GetSucceeds | src/service.ts:1574-1582 | reading a proposal back never fails its integrity check |
| Calls.TamperedIsNotReturned | src/service.ts:1574-1582 | on tables of any content, a proposal whose evidence does not hold up is never returned |
| Calls.CreateCallIsRun | src/service.ts:1388-1477 | a whole createIntent call is a short run of operations, wherever it stops |
| Calls.ReviewCallIsRun | src/service.ts:1624-1757 | so is approveIntent |
| Calls.CancelCallIsRun | src/service.ts:1759-1827 | so is cancelIntent |
| Calls.ObserveCallIsRun | src/service.ts:2666-2726 | so is recordMockObservation |
| Calls.CreateCallAnswers | src/service.ts:1388-1477 | in a reachable store the call answers what its operation answers on the swept store, and an accepted one sweeps once more |
| Calls.DecisionCallAnswers | src/service.ts:1624-1827 | so do approveIntent and cancelIntent |
| Calls.ObserveCallAnswers | src/service.ts:2666-2726 | so does recordMockObservation, without the first sweep |
| Service.ParimitService.constructor | src/service.ts:358-520 | a new service stands on an empty store |
| Service.ParimitService.Rollback | src/service.ts:1154-1164 | a failed transaction leaves every table as it was |
| Service.ParimitService.AppendAudit | src/service.ts:1256-1302 | appends the one event that extends the proposal's chain, or changes nothing and reports the clock |
| Service.ParimitService.ExpireDueIntents | src/service.ts:1304-1327 | the loop does exactly what the sweep specifies, all or nothing |
| Service.ParimitService.ExposureSince | src/service.ts:1329-1344 | the summing loop returns the agent's live exposure |
| Service.ParimitService.CreateTransaction | src/service.ts:1395-1472 | replay, conflict, or one row with its first event, as specified; `Proposals.CreateAnswers` says what the row holds |
| Service.ParimitService.ReviewTransaction | src/service.ts:1644-1748 | every check and its error in order, then the row, status, version and event as specified |
| Service.ParimitService.CancelTransaction | src/service.ts:1767-1818 | every check and its error in order, then status, version and event as specified |
| Service.ParimitService.LatestObservation | src/service.ts:1504-1521 | the scan finds the row the ordered query would |
| Service.ParimitService.ObserveTransaction | src/service.ts:2684-2724 | every check and its error in order, then row and event as specified |
| Service.ParimitService.IssueAuthorizationEnvelope | src/service.ts:2191-2416 | every check and its error in order, then replay, refusal, or one signed row with its event, as specified |
| Service.ParimitService.VerifyAuthorizationEnvelope | src/service.ts:2418-2548 | flags, stored consumption, failures in order and verdict as specified |
| Service.ParimitService.ConsumeAuthorizationEnvelope | src/service.ts:2551-2664 | every check and its error in order, then replay, refusal, or the consumption columns with their event, as specified; `EnvelopeOutcomes.ConsumeAnswers` and its refusals say when |
| Service.ParimitService.InitializeSchema | src/service.ts:960-1067 | checks an existing integrity root and registry, or founds them on an empty database |
| Service.ParimitService.RegisterEnvelopeSigningKey | src/service.ts:1069-1129 | adds an attested key row under a new checkpoint, or finds or refuses the key id |
| Service.ParimitService.Boot | src/service.ts:500-520 | one start of the process, which may stop between the two transactions |
| Service.ParimitService.GetIntent | src/service.ts:1574-1582 | sweeps, then reads back a proposal that passes the check |
| Service.ParimitService.CreateIntent | src/service.ts:1388-1477 | the whole call as specified; `Calls.CreateCallAnswers` and `Proposals.CreateAnswers` say what it answers |
| Service.ParimitService.ApproveIntent | src/service.ts:1624-1757 | the whole call as specified |
| Service.ParimitService.CancelIntent | src/service.ts:1759-1827 | the whole call as specified |
| Service.ParimitService.RecordMockObservation | src/service.ts:2666-2726 | the whole call as specified |
| Ordering.SortedUnique | src/service.ts:251-253 | sorting by code units with distinct keys leaves one arrangement, whatever the input order |
| Ordering.UnitsLeqPositional | src/crypto.ts:19-26 | the comparison is code-unit order by position: a proper beginning comes first, otherwise the smaller unit at the first difference |
| Ordering.SortedStrictly | src/service.ts:251-253 | in a sorted list with distinct keys whatever stands earlier has the smaller number, or an equal one and the text that comes strictly before |
| Json.FractionReads | src/crypto.ts:7-10 | a number that is no integer, written in whichever of JavaScript's three notations applies, reads back as itself |
| Json.DecimalReads | src/crypto.ts:7-10 | so does an integer |
| Json.EscapesAre | src/crypto.ts:4-5 | how each unit of a string is written |
| Json.HexEscape | src/crypto.ts:4-5 | control characters and lone surrogates take four lower-case hexadecimal digits that spell them |
| Json.PointStands | src/crypto.ts:7-10 | where the point of a number stands, from 10^21 down to 10^-6 |
| Json.PowerStands | src/crypto.ts:7-10 | and how the power of ten is written beyond |
| CanonicalJson.Canonicalize | src/crypto.ts:3-28 | the recursive writer with its array loop and sorted record pass returns the specified text or the first error |
| CanonicalText.CanonicalPrints | src/crypto.ts:3-28 | it succeeds exactly on serializable values and prints their normal form |
| CanonicalMeaning.CanonicalInOrder | src/crypto.ts:19-26 | reading a canonical text back gives the value it was written from, printed as it stands, with the members of every record in strict code-unit order of their names |
| CanonicalMeaning.MembersAre | src/crypto.ts:19-26 | members stand between braces with commas, each a quoted name, a colon and its value |
| CanonicalMeaning.ElementsAre | src/crypto.ts:11-18 | elements stand between brackets with commas |
| CanonicalMeaning.ArrayFails | src/crypto.ts:11-18 | an array fails as its first failing element does |
| CanonicalMeaning.RecordFails | src/crypto.ts:19-26 | a record fails as the failing member does whose name comes first |
| CanonicalMeaning.ErrorsAre | src/crypto.ts:6-28 | a hole, a number that is not finite and a value JSON has no form for each fail as their own kind |
| CanonicalMeaning.SameTextSameValue | src/crypto.ts:19-26 | two values share a canonical text if and only if they are the same value up to member order and undefined members |
| CanonicalMeaning.OrderDoesNotMatter | src/crypto.ts:19-26 | reordering members, or adding and removing undefined ones, changes nothing |
| CanonicalMeaning.CanonicalReadsBack | src/service.ts:1283-1294 | JSON.parse of a canonical text is the normal form of what was written |
| CanonicalMeaning.CanonicalIsFixed | src/service.ts:2918-2945 | writing the reparsed value gives the same text, so the hash recomputed by the check is the hash stored |
| Utf8.DecodeEncode | src/envelope.ts:43-54 | a fatal decoder undoes the encoding of any well-formed text |
| Utf8.DecodeIsExact | src/envelope.ts:43-54 | the fatal decoder accepts exactly the encodings of texts without a lone surrogate |
| Utf8.DecodeDropsMark | src/envelope.ts:43-54 | as called, it loses a byte-order mark at the start and nothing else |
| Utf8.UnitBytes | src/envelope.ts:132-133 | how many bytes each unit takes, in which ranges, and that their low bits spell it; a lone surrogate is U+FFFD |
| Utf8.PairBytes | src/envelope.ts:132-133 | so for the four bytes of a surrogate pair |
| Utf8.EncodeConcat | src/envelope.ts:132-133 | two texts encode one after the other unless a surrogate pair straddles them |
| Base64Url.EncodeLength | src/envelope.ts:132-136 | unpadded base64url takes exactly (4n + 2) / 3 letters for n bytes |
| Base64Url.LettersAre | src/envelope.ts:32-41 | the alphabet of base64url, letter by letter |
| Base64Url.EncodeSpells | src/envelope.ts:132-136 | each group of bytes and its letters spell the same number, most significant bits first |
| Base64Url.EncodeReads | src/envelope.ts:32-41 | what the encoder writes is in the alphabet, has an allowed length, and decodes to the same bytes |
| Base64Url.DecodeIsExact | src/envelope.ts:32-41 | the strict decoder accepts exactly the encodings of non-empty byte strings and returns those bytes |
| JwsCodec.OneSpelling | src/envelope.ts:139-228 | every accepted compact string is the re-encoding of its header, payload and signature |
| JwsCodec.VerifyIsExact | src/envelope.ts:139-228 | a string verifies to a triple if and only if it is its one spelling within 65,536 letters, under the key's own id, with a payload as canonical text gives it and a 64-byte signature that verifies |
| JwsCodec.HeaderText | src/envelope.ts:123-131 | the protected header, letter by letter |
| JwsCodec.QuoteStands | src/crypto.ts:4-5 | text without control characters, quotes, backslashes and lone surrogates is quoted as it stands |
| JwsCodec.SameContentSameString | src/envelope.ts:139-228 | two accepted strings with the same content and signature are equal |
| JwsCodec.PrintedWellFormed | src/envelope.ts:123-137 | a canonical text never holds a lone surrogate, so UTF-8 loses nothing |
| JwsCodec.SignedVerifies | src/envelope.ts:123-175 | a freshly signed payload verifies under the matching key to exactly its key id, payload and signature, if and only if the string is at most 65,536 long |
| JwsSize.SignLength | src/envelope.ts:123-137 | the length of a signed string, exactly, from the bytes of the payload's canonical text and of the key id |
| JwsSize.SignedFits | src/envelope.ts:139-148 | the same condition before signing: payload and key id decide whether the signed string verifies |
| JwsSize.LongSignedRejected | src/envelope.ts:14-15 | under every scheme and key, an object with one string of 70,000 letters signs to a string over the limit, which is refused |
| JwsSize.LightEnough | src/envelope.ts:123-148 | a payload whose strings are short enough, at six bytes for each code unit, verifies once signed whatever they hold |
| EnvelopeDocument.ClaimsVerify | src/service.ts:2307-2353 | the document of any claims within the field limits signs to a string within the codec's limit that verifies to exactly that document |
| EnvelopeMeaning.DocumentPinsClaims | src/service.ts:2307-2353 | strict claims that make the same document are the same claims, so a signed document may stand for its claims |
| EnvelopeMeaning.DocumentTells | src/service.ts:2307-2313 | the head of the document: version, issuer, subject, audience and id, each from its own claim |
| EnvelopeMeaning.TimesTell | src/service.ts:2313-2317 | its times and its tenant, likewise |
| EnvelopeMeaning.IdentityTells | src/service.ts:2318-2323 | how the people were authenticated |
| EnvelopeMeaning.SnapshotTells | src/service.ts:1185-1231 | the proposal in it: version, id, tenant, key and on whose behalf |
| EnvelopeMeaning.RequesterTells | src/service.ts:1185-1231 | which agent asked for it |
| EnvelopeMeaning.AmountTells | src/service.ts:1185-1231 | how much it asked for, in decimal digits |
| EnvelopeMeaning.TermsTell | src/service.ts:1185-1231 | payee, purpose, initial status, policy and times |
| EnvelopeMeaning.PolicyTells | src/service.ts:1185-1231 | what the policy said |
| EnvelopeMeaning.DecisionTells | src/service.ts:2329-2336 | the decision: state, version, requirement, last approval and the approvals with their digest |
| EnvelopeMeaning.ApprovalTells | src/service.ts:1865-1889 | one approval in it |
| EnvelopeMeaning.EvidenceTells | src/service.ts:2318-2352 | where each part of the evidence stands |
| EnvelopeMeaning.CapabilityTells | src/service.ts:2345-2351 | the capability block denies dispatch, execution, instruction and moving money |
| EnvelopeFits.RunWithin | src/service.ts:268-331 | over any run the limits checked at the door hold of every stored row, approval and envelope |
| EnvelopeFits.StoredEnvelopeFits | src/service.ts:2363-2366 | every envelope stored in a reachable world has a document that, signed under any key, fits the codec's limit and verifies |
| SseTurn.ParseSse | integrations/ainxt/adapter.ts:308-395 | the frame loop accepts a body exactly when its records form a turn of the grammar, and returns the trimmed text of the deltas in order |
| SseTurn.TurnBegins | integrations/ainxt/adapter.ts:318-389 | every beginning of a turn is a proper one, so refusing at the first bad frame loses no turn |
| SseTurn.LongerEncodes | integrations/ainxt/adapter.ts:367-370 | a longer draft never takes fewer bytes, so checking every prefix is checking the whole |
| SseTurn.TurnIs | integrations/ainxt/adapter.ts:318-389 | the grammar in terms of the records' own members: stamped alike, one start before all text, one end as the last record, a draft that is not blank and fits |
| SseTurn.TurnStarts | integrations/ainxt/adapter.ts:362-366 | every accepted turn has a start record |
| SseTurn.DraftIs | integrations/ainxt/adapter.ts:365-380 | the draft is the text of the deltas, in order, and of no other record |
| SseTurn.TrimCuts | integrations/ainxt/adapter.ts:391-394 | trimming cuts exactly the white space at both ends |
| SseFrames.UnixConverts | integrations/ainxt/adapter.ts:314 | each carriage return before a line feed goes, everything else stays |
| SseFrames.EventsAre | integrations/ainxt/adapter.ts:314 | an event ends at two or more line feeds, all of which go, or at the end of the body |
| SseFrames.LinesAre | integrations/ainxt/adapter.ts:318-320 | the lines of an event are the text between its line feeds |
| SseFrames.DataLinesAre | integrations/ainxt/adapter.ts:318-321 | a data line gives what follows its name, less one space, and other lines give nothing |
| SseFrames.WrittenTurnAccepted | integrations/ainxt/adapter.ts:308-395 | every turn of the grammar written out as server-sent events is accepted with its trimmed text |
| PoolRetry.WriteTransaction | src/storage/postgres-contract.ts:76-90 | commits, or rolls back and raises what failed, or an aggregate when begin or rollback failed |
| PoolRetry.PoolTransaction | src/storage/postgres-contract.ts:134-168 | at most the allowed attempts, each but the last retried for cause, the last one's outcome, and no path to the final throw |
| PoolRetry.EveryCheckoutReleased | src/storage/postgres-contract.ts:143-165 | checkouts and releases balance over the whole call, one pair for each attempt that connected |
| PoolRetry.AttemptReleases | src/storage/postgres-contract.ts:162-164 | each checkout is released exactly once, last, and discarded exactly on an aggregate error |
| PoolRetry.RetriedCleanly | src/storage/postgres-contract.ts:107-125 | an attempt is repeated exactly after a clean rollback of a serialization failure, a deadlock or a breach of the no-forks constraint, if the observer does not throw |
| PoolRetry.FinalOutcome | src/storage/postgres-contract.ts:143-165 | the caller sees the last attempt's connection error, the observer's error, or the transaction's own outcome |
| PoolRetry.UntrustedIsDiscarded | src/storage/postgres-contract.ts:49-70 | a connection whose BEGIN or ROLLBACK failed is released with that error and never followed by a retry |
| PoolRetry.ReturnedMeansCommitted | src/storage/postgres-contract.ts:81-86 | a value is returned exactly when its work returned it and its commit succeeded |
| AuditAppenders.OneLinearChain | src/storage/postgres-contract.ts:258-316 | in every interleaving the committed events of a proposal are one chain from GENESIS in sequence order without forks, and are never lost |
| AuditAppenders.AcceptedInsertExtends | db/postgres/001_initial.sql:156-157 | an insert the constraint lets through names the last event, however old its snapshot |
| AuditAppenders.StaleExactlyRefused | src/storage/postgres-contract.ts:107-125 | an append under the lock is refused exactly when its snapshot misses an event of that proposal |
| AuditAppenders.AppendOutcome | src/storage/postgres-contract.ts:258-316 | reading the tail and inserting under the lock ends the transaction exactly then, and otherwise adds the event that names the last committed one |
| AuditAppenders.OtherSteps | src/storage/postgres-contract.ts:216-236 | snapshots, row locks, commits and aborts, step by step |
| AuditAppenders.NoRival | src/storage/postgres-contract.ts:216-236 | while the parent is locked nobody else has an uncommitted event for it |
| AuditAppenders.RetrySucceeds | src/storage/postgres-contract.ts:127-133 | an undisturbed whole-transaction retry appends its event at the end |
| CreateOrReplay.OneIntentPerKey | src/storage/postgres-proposal-repository.ts:421-455 | in every interleaving each key has one row and each row one initial event; all successes for a key name that row with their own fingerprint, and a conflict is only ever against another fingerprint |
| CreateOrReplay.TakenKeyAnswers | src/storage/postgres-proposal-repository.ts:405-436 | from any state, an undisturbed call under a taken key gets that key's one row if the fingerprints agree and a conflict if not, and changes nothing |
| CreateOrReplay.FreeKeyCreates | src/storage/postgres-proposal-repository.ts:438-525 | under a free key prepare sees what the agent's allowed rows of the day that are waiting or authorized add up to, and what fits the locked request commits one row with its one event; each way to fail leaves both tables alone |
| CreateOrReplay.ExposureIsExact | src/storage/postgres-proposal-repository.ts:457-492 | a committed creation recorded exactly that exposure of the rows it joined |
| CreateOrReplay.DailyLimitHolds | src/storage/postgres-proposal-repository.ts:396-529 | if every prepare respects the limit, the amounts of every agent's allowed rows of every UTC day that are waiting or authorized add up to at most that |
| CreateOrReplay.MoveNeverAdds | db/postgres/001_initial.sql:413-424 | a status transition the database allows never raises a day's total |
| CreateOrReplay.MoveChangesSum | src/storage/postgres-proposal-repository.ts:438-446 | authorizing a row leaves every day's sum as it is; rejecting, cancelling or expiring it takes its amount off its day |
| CreateOrReplay.MovesAllowed | src/service.ts:1709-1719 | only a waiting row moves: it goes on waiting, or becomes authorized, rejected, cancelled or expired |
| CreateOrReplay.DaySumIs | src/storage/postgres-proposal-repository.ts:438-446 | the sum the query takes row by row is the plain sum over the rows that count |

## Left out

- HTTP, MCP, SDK, dashboard, authentication, environment parsing and scripts: they call the modelled core or only move bytes.
- SHA-256, HMAC-SHA256 and Ed25519 themselves: symbolic, injective, and verifying undoes signing; in `JwsCodec` signing is a parameter.
- EnvelopeFits.StoredEnvelopeFits: takes the times and the event count in the claims to be safe integers, which the source's schema check demands at issue and the ledger's unbounded integers do not bring; fixed names and words enter by their lengths.
- Legacy v1 and v2 rows and the schema migration: only `parimit-payment-intent-v3` proposals are modelled.
- Timestamps that are not canonical ISO strings: time is an integer of milliseconds, and four-digit-year strings compare the same way.
- Character classes of identifiers, purposes, payees, UUIDs and nonces: only lengths and ranges are modelled.
- Case folding of payees beyond ASCII letters.
- Fixed literals of an envelope, such as its capability block: the claims of `Evidence` do not carry them; the document of `EnvelopeDocument` does, with the notice text as one word.
- The extra-field checks on a verification key: a key is its id and key pair.
- Rounding of JSON numbers to doubles, and overflow to Infinity: a number is the exact decimal it spells, and an integer is written out in full at any size.
- `__proto__` and other prototype effects of JavaScript objects.
- Views returned to callers, `listIntents`, `getAudit`, `evaluatePolicy`, `envelopeJwks`: reads over the modelled rows.
- Proposals of other tenants in one database: `Tables.Consistent` has one tenant per database, which the integrity root enforces.
- Service.ParimitService.IssueAuthorizationEnvelope: UNIQUE (compact_jws) is not modelled, since a compact string contains its fresh envelope id; a drawn id or nonce that is already taken is.
- Service.ParimitService.ReviewTransaction: the random id of an approval row is dropped, as nothing reads it but a tie-break in listing order.
- IntegrityChecker.VerifySlice: the order of rows in the failure list follows insertion order, not the ORDER BY of the approval and envelope queries; the flags do not depend on it.
- SQL itself: a query is the operation on rows it stands for, and a transaction is all or nothing.
- AuditAppenders.OneLinearChain: the trigger `audit_events_chain_tail` re-reads the tail in the same snapshot and adds nothing, so it is not a step of its own.
- CreateOrReplay.OneIntentPerKey: speaks of answered calls; `TakenKeyAnswers` and `FreeKeyCreates` give the answer of an undisturbed attempt, an aborted one gives none and changes nothing, and PostgreSQL is assumed to fail a commit whose read rows changed.
- CreateOrReplay.ExposureIsExact: fields of a prepared proposal that do not enter the sum, the key or the initial event are not carried.
- `readIntent`, `rowToIntent` and the exact driver results they check: one branch each.
- SseTurn.ParseSse: a `seq` with more digits than a double holds is taken exactly, not rounded; errors are not distinguished, since every refusal carries the same code.
- Service.ParimitService.VerifyAuthorizationEnvelope: arguments that are not strings, which the source answers with ENVELOPE_NOT_STRING or an audience mismatch.
- The drafting prompt, the draft cache and the HTTP exchange around a turn.
