// Whole-transaction retry over pool checkouts, for every sequence of outcomes the driver,
// the callback and the retry observer can produce.
module PoolRetry {
  import opened Basics

  // What JavaScript can throw here: an AggregateError or not, with whatever fields it carries.
  datatype Thrown = Thrown(aggregate: bool, code: Option<string>, schema: Option<string>, relation: Option<string>,
                           constraintName: Option<string>, causes: seq<Thrown>)

  const RANGE_ERROR := Thrown(false, None, None, None, None, [])

  function Aggregate(causes: seq<Thrown>): Thrown { Thrown(true, None, None, None, None, causes) }

  // isRetryablePostgresTransactionError
  predicate Retryable(e: Thrown) {
    || e.code == Some("40001") || e.code == Some("40P01")
    || (&& e.code == Some("23505") && e.schema == Some("parimit") && e.relation == Some("audit_events")
        && e.constraintName == Some("audit_events_no_forks"))
  }

  // What will happen in one attempt: None is success, work yields a value or throws.
  datatype Attempt<T> = Attempt(connect: Option<Thrown>, begin: Option<Thrown>, work: Result<T>, commit: Option<Thrown>,
                                rollback: Option<Thrown>, onRetry: Option<Thrown>)

  datatype Result<+T> = Returned(value: T) | Raised(error: Thrown)

  // The calls made on the pool and its clients.
  datatype Call = Connect(ok: bool) | Begin(ok: bool) | Work(ok: bool) | Commit(ok: bool) | Rollback(ok: bool)
                | Notify(attempt: nat) | Release(discard: Option<Thrown>)

  // ----- one transaction -----

  // The error that started the rollback, if any.
  function Failure<T>(a: Attempt<T>): Option<Thrown> {
    if a.work.Raised? then Some(a.work.error) else a.commit
  }

  function TransactionResult<T>(a: Attempt<T>): Result<T> {
    if a.begin.Some? then Raised(Aggregate([a.begin.value]))
    else
      match Failure(a)
      case None => a.work
      case Some(e) => if a.rollback.Some? then Raised(Aggregate([e, a.rollback.value])) else Raised(e)
  }

  // withSerializableWriteTransaction
  method WriteTransaction<T>(a: Attempt<T>) returns (r: Result<T>, calls: seq<Call>)
    ensures r == TransactionResult(a)
    ensures calls == TransactionCalls(a)
    ensures a.begin.Some? ==>
      calls == [Begin(false)] && r.Raised? && r.error.aggregate && r.error.causes == [a.begin.value]
    ensures a.begin.None? && a.work.Returned? && a.commit.None? ==>
      calls == [Begin(true), Work(true), Commit(true)] && r == a.work
    ensures a.begin.None? && a.work.Returned? && a.commit.Some? ==>
      && calls == [Begin(true), Work(true), Commit(false), Rollback(a.rollback.None?)]
      && r.Raised? && (a.rollback.None? ==> r.error == a.commit.value)
      && (a.rollback.Some? ==> r.error.aggregate && r.error.causes == [a.commit.value, a.rollback.value])
    ensures a.begin.None? && a.work.Raised? ==>
      && calls == [Begin(true), Work(false), Rollback(a.rollback.None?)]
      && r.Raised? && (a.rollback.None? ==> r.error == a.work.error)
      && (a.rollback.Some? ==> r.error.aggregate && r.error.causes == [a.work.error, a.rollback.value])
  {
    if a.begin.Some? { return Raised(Aggregate([a.begin.value])), [Begin(false)]; }
    calls := [Begin(true)];
    var error: Option<Thrown> := None;
    if a.work.Raised? {
      calls := calls + [Work(false)];
      error := Some(a.work.error);
    } else {
      calls := calls + [Work(true), Commit(a.commit.None?)];
      error := a.commit;
    }
    if error.None? { return a.work, calls; }
    calls := calls + [Rollback(a.rollback.None?)];
    r := if a.rollback.Some? then Raised(Aggregate([error.value, a.rollback.value])) else Raised(error.value);
  }

  function TransactionCalls<T>(a: Attempt<T>): seq<Call> {
    if a.begin.Some? then [Begin(false)]
    else
      [Begin(true)]
      + (if a.work.Raised? then [Work(false)] else [Work(true), Commit(a.commit.None?)])
      + (if Failure(a).Some? then [Rollback(a.rollback.None?)] else [])
  }

  // ----- the retry loop -----

  // The attempt failed in a way that may be tried again, and the observer let it.
  predicate Retries<T>(a: Attempt<T>) {
    a.connect.None? && TransactionResult(a).Raised? && Retryable(TransactionResult(a).error) && a.onRetry.None?
  }

  // What the caller sees when this attempt is the last one made; atLimit if no more are allowed.
  function Final<T>(a: Attempt<T>, atLimit: bool): Result<T> {
    if a.connect.Some? then Raised(a.connect.value)
    else
      var r := TransactionResult(a);
      if r.Raised? && Retryable(r.error) && !atLimit && a.onRetry.Some? then Raised(a.onRetry.value) else r
  }

  function Discarded<T>(r: Result<T>): Option<Thrown> {
    if r.Raised? && r.error.aggregate then Some(r.error) else None
  }

  function AttemptCalls<T>(a: Attempt<T>, attempt: nat, atLimit: bool): seq<Call> {
    if a.connect.Some? then [Connect(false)]
    else
      var r := TransactionResult(a);
      [Connect(true)] + TransactionCalls(a)
      + (if r.Raised? && Retryable(r.error) && !atLimit then [Notify(attempt)] else [])
      + [Release(Discarded(r))]
  }

  // The calls of attempts 1 to n.
  function Calls<T>(script: nat -> Attempt<T>, n: nat, limit: nat): seq<Call> {
    if n == 0 then [] else Calls(script, n - 1, limit) + AttemptCalls(script(n), n, n == limit)
  }

  // withSerializablePoolTransaction
  method PoolTransaction<T>(script: nat -> Attempt<T>, maxAttempts: Option<int>)
    returns (r: Result<T>, attempts: nat, calls: seq<Call>)
    ensures var limit := if maxAttempts.Some? then maxAttempts.value else 3;
      if limit < 1 || limit > 10 then r == Raised(RANGE_ERROR) && attempts == 0 && calls == []
      else
        && 1 <= attempts <= limit
        && (forall i :: 1 <= i < attempts ==> Retries(script(i)))
        && (attempts == limit || !Retries(script(attempts)))
        && r == Final(script(attempts), attempts == limit)
        && calls == Calls(script, attempts, limit)
  {
    hide TransactionResult, TransactionCalls, Failure, Retryable;
    var limit := if maxAttempts.Some? then maxAttempts.value else 3;
    calls := [];
    attempts := 0;
    r := Raised(RANGE_ERROR);
    if limit < 1 || limit > 10 { return; }
    var attempt := 1;
    while attempt <= limit
      invariant 1 <= attempt <= limit && attempts == attempt - 1
      invariant forall i :: 1 <= i < attempt ==> Retries(script(i))
      invariant calls == Calls(script, attempt - 1, limit)
      decreases limit - attempt
    {
      var a := script(attempt);
      attempts := attempt;
      if a.connect.Some? {
        calls := calls + [Connect(false)];
        return Raised(a.connect.value), attempts, calls;
      }
      var discard: Option<Thrown> := None;
      var notified: seq<Call> := [];
      var done := true;
      var result, made := WriteTransaction(a);
      r := result;
      if result.Raised? {
        if result.error.aggregate { discard := Some(result.error); }
        if Retryable(result.error) && attempt != limit {
          notified := [Notify(attempt)];
          if a.onRetry.Some? { r := Raised(a.onRetry.value); } else { done := false; }
        }
      }
      calls := calls + ([Connect(true)] + made + notified + [Release(discard)]);
      if done { return; }
      attempt := attempt + 1;
    }
    assert false;
  }

  // ----- what the caller and the pool may rely on -----

  function Count(calls: seq<Call>, kind: Call -> bool): nat {
    if calls == [] then 0 else (if kind(calls[0]) then 1 else 0) + Count(calls[1..], kind)
  }

  const Checkout := (c: Call) => c == Connect(true)
  const Returning := (c: Call) => c.Release?

  lemma {:induction false} CountSplit(a: seq<Call>, b: seq<Call>, kind: Call -> bool)
    ensures Count(a + b, kind) == Count(a, kind) + Count(b, kind)
  {
    if a == [] {
      assert a + b == b;
    } else {
      CountSplit(a[1..], b, kind);
      assert (a + b)[1..] == a[1..] + b;
    }
  }

  lemma {:induction false} CountsNone(calls: seq<Call>, kind: Call -> bool)
    requires forall i :: 0 <= i < |calls| ==> !kind(calls[i])
    ensures Count(calls, kind) == 0
  {
    if calls != [] { CountsNone(calls[1..], kind); }
  }

  lemma {:induction false} NoCheckoutInside<T>(a: Attempt<T>)
    ensures Count(TransactionCalls(a), Checkout) == 0 && Count(TransactionCalls(a), Returning) == 0
  {
    hide Count;
    forall i | 0 <= i < |TransactionCalls(a)|
      ensures !TransactionCalls(a)[i].Connect? && !TransactionCalls(a)[i].Release?
    {
    }
    CountsNone(TransactionCalls(a), Checkout);
    CountsNone(TransactionCalls(a), Returning);
  }

  // Each checkout is released exactly once, by the last call of its attempt.
  lemma {:induction false} AttemptReleases<T>(a: Attempt<T>, attempt: nat, atLimit: bool)
    ensures var calls := AttemptCalls(a, attempt, atLimit);
      && (Notify(attempt) in calls <==> !atLimit && Retries(a.(onRetry := None)))
      && (a.connect.Some? ==> calls == [Connect(false)])
      && Count(calls, Checkout) == Count(calls, Returning) == (if a.connect.None? then 1 else 0)
      && (a.connect.None? ==>
           var r := TransactionResult(a);
           && calls[0] == Connect(true)
           && calls[|calls| - 1] == Release(if r.Raised? && r.error.aggregate then Some(r.error) else None))
  {
    if a.connect.None? {
      var r := TransactionResult(a);
      var notified := if r.Raised? && Retryable(r.error) && !atLimit then [Notify(attempt)] else [];
      NoCheckoutInside(a);
      hide TransactionCalls, TransactionResult;
      forall kind | kind == Checkout || kind == Returning
        ensures Count([Connect(true)] + TransactionCalls(a) + notified + [Release(Discarded(r))], kind) == 1
      {
        CountSplit([Connect(true)] + TransactionCalls(a) + notified, [Release(Discarded(r))], kind);
        CountSplit([Connect(true)] + TransactionCalls(a), notified, kind);
        CountSplit([Connect(true)], TransactionCalls(a), kind);
      }
    }
  }

  // Over the whole call, checkouts and releases balance, one pair for every attempt that connected.
  lemma {:induction false} EveryCheckoutReleased<T>(script: nat -> Attempt<T>, n: nat, limit: nat)
    requires forall i :: 1 <= i < n ==> Retries(script(i))
    ensures Count(Calls(script, n, limit), Checkout) == Count(Calls(script, n, limit), Returning)
    ensures Count(Calls(script, n, limit), Checkout) == if n == 0 || script(n).connect.None? then n else n - 1
  {
    if n > 0 {
      EveryCheckoutReleased(script, n - 1, limit);
      AttemptReleases(script(n), n, n == limit);
      hide AttemptCalls;
      CountSplit(Calls(script, n - 1, limit), AttemptCalls(script(n), n, n == limit), Checkout);
      CountSplit(Calls(script, n - 1, limit), AttemptCalls(script(n), n, n == limit), Returning);
    }
  }

  // An attempt is repeated exactly after a clean rollback of a serialization failure, a deadlock, or
  // a breach of the audit chain's no-forks constraint, if the observer does not throw.
  lemma {:induction false} RetriedCleanly<T>(a: Attempt<T>)
    ensures var failure := if a.work.Raised? then Some(a.work.error) else a.commit;
      Retries(a) <==>
        && a.connect.None? && a.begin.None? && failure.Some? && a.rollback.None? && a.onRetry.None?
        && (failure.value.code in {Some("40001"), Some("40P01")}
            || (failure.value.code == Some("23505") && failure.value.schema == Some("parimit")
                && failure.value.relation == Some("audit_events")
                && failure.value.constraintName == Some("audit_events_no_forks")))
  {
  }

  // A connection whose BEGIN or ROLLBACK failed is released with that error, and the call ends there.
  lemma {:induction false} UntrustedIsDiscarded<T>(a: Attempt<T>)
    requires a.connect.None? && (a.begin.Some? || (Failure(a).Some? && a.rollback.Some?))
    ensures !Retries(a) && Discarded(TransactionResult(a)).Some?
    ensures Final(a, true) == Final(a, false) == Raised(Discarded(TransactionResult(a)).value)
  {
  }

  // What the caller sees of a whole call: the last attempt's connection error, the observer's error, or
  // the transaction's own outcome.
  lemma {:induction false} FinalOutcome<T>(a: Attempt<T>, atLimit: bool)
    ensures a.connect.Some? ==> Final(a, atLimit) == Raised(a.connect.value)
    ensures a.connect.None? && (atLimit || a.onRetry.None? || !Retries(a.(onRetry := None))) ==>
      Final(a, atLimit) == TransactionResult(a)
    ensures !atLimit && a.onRetry.Some? && Retries(a.(onRetry := None)) ==> Final(a, atLimit) == Raised(a.onRetry.value)
  {
  }

  // A value comes back only from an attempt whose work returned it and whose commit succeeded.
  lemma {:induction false} ReturnedMeansCommitted<T>(a: Attempt<T>, atLimit: bool, value: T)
    ensures Final(a, atLimit) == Returned(value)
       <==> a.connect.None? && a.begin.None? && a.work == Returned(value) && a.commit.None?
  {
  }
}
