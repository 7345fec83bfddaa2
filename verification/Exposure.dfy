// The daily-exposure query: the amounts of one agent's live intents since a UTC midnight.
module Exposure {
  import opened Basics
  import opened Evidence

  const DAY_MS := 86_400_000

  function DayStart(ms: int): int { ms / DAY_MS * DAY_MS }

  predicate IsLive(status: Status) { status.AwaitingApproval? || status.AuthorizedNoDispatch? }

  // One row's share of the sum over created_at in [from, until).
  function Share(s: Slice, tenant: string, agent: string, from: int, until: Option<int>): int {
    if s.intent.agentId == agent && s.intent.tenantId == tenant
       && from <= s.intent.createdAt && (until.Some? ==> s.intent.createdAt < until.value)
       && s.intent.policyAllowed && IsLive(s.intent.status)
    then s.intent.amountMinor else 0
  }

  ghost function LiveSum(book: Book, ids: set<Id>, tenant: string, agent: string, from: int, until: Option<int>): int
    requires ids <= book.Keys
  {
    if ids == {} then 0
    else
      var id :| id in ids;
      Share(book[id], tenant, agent, from, until) + LiveSum(book, ids - {id}, tenant, agent, from, until)
  }

  // What the service's dailyExposure returns at a clock reading.
  ghost function DailyExposure(book: Book, tenant: string, agent: string, at: int): int {
    LiveSum(book, book.Keys, tenant, agent, DayStart(at), None)
  }

  // What the agent's intents created on one UTC day add up to.
  ghost function DayTotal(book: Book, tenant: string, agent: string, day: int): int {
    LiveSum(book, book.Keys, tenant, agent, day * DAY_MS, Some((day + 1) * DAY_MS))
  }

  // The sum does not depend on the order rows are visited in.
  lemma {:induction false} SumSplit(book: Book, ids: set<Id>, x: Id, tenant: string, agent: string, from: int,
                                    until: Option<int>)
    requires x in ids && ids <= book.Keys
    ensures LiveSum(book, ids, tenant, agent, from, until)
         == Share(book[x], tenant, agent, from, until) + LiveSum(book, ids - {x}, tenant, agent, from, until)
  {
    var id :| id in ids && LiveSum(book, ids, tenant, agent, from, until)
      == Share(book[id], tenant, agent, from, until) + LiveSum(book, ids - {id}, tenant, agent, from, until);
    if id != x {
      SumSplit(book, ids - {id}, x, tenant, agent, from, until);
      assert ids - {id} - {x} == ids - {x} - {id};
      SumSplit(book, ids - {x}, id, tenant, agent, from, until);
    }
  }

  // Rows outside the set, and equal shares inside it, leave the sum alone.
  lemma {:induction false} SumCongruent(a: Book, b: Book, ids: set<Id>, tenant: string, agent: string, from: int,
                                        until: Option<int>)
    requires ids <= a.Keys && ids <= b.Keys
    requires forall id :: id in ids ==>
      Share(a[id], tenant, agent, from, until) == Share(b[id], tenant, agent, from, until)
    ensures LiveSum(a, ids, tenant, agent, from, until) == LiveSum(b, ids, tenant, agent, from, until)
  {
    if ids != {} {
      var id :| id in ids;
      SumSplit(a, ids, id, tenant, agent, from, until);
      SumSplit(b, ids, id, tenant, agent, from, until);
      SumCongruent(a, b, ids - {id}, tenant, agent, from, until);
    }
  }

  // Pointwise smaller shares give a smaller sum, over rows and over windows.
  lemma {:induction false} SumMonotone(a: Book, b: Book, ids: set<Id>, tenant: string, agent: string, fromA: int,
                                       untilA: Option<int>, fromB: int, untilB: Option<int>)
    requires ids <= a.Keys && ids <= b.Keys
    requires forall id :: id in ids ==>
      Share(a[id], tenant, agent, fromA, untilA) <= Share(b[id], tenant, agent, fromB, untilB)
    ensures LiveSum(a, ids, tenant, agent, fromA, untilA) <= LiveSum(b, ids, tenant, agent, fromB, untilB)
  {
    if ids != {} {
      var id :| id in ids;
      SumSplit(a, ids, id, tenant, agent, fromA, untilA);
      SumSplit(b, ids, id, tenant, agent, fromB, untilB);
      SumMonotone(a, b, ids - {id}, tenant, agent, fromA, untilA, fromB, untilB);
    }
  }

  // ----- the same sums, as plain sums over the rows that count -----

  // The amounts of some rows, added up.
  ghost function AmountSum(book: Book, ids: set<Id>): int
    requires ids <= book.Keys
  {
    if ids == {} then 0
    else
      var id :| id in ids;
      book[id].intent.amountMinor + AmountSum(book, ids - {id})
  }

  lemma {:induction false} AmountSplit(book: Book, ids: set<Id>, x: Id)
    requires x in ids && ids <= book.Keys
    ensures AmountSum(book, ids) == book[x].intent.amountMinor + AmountSum(book, ids - {x})
  {
    var id :| id in ids && AmountSum(book, ids) == book[id].intent.amountMinor + AmountSum(book, ids - {id});
    if id != x {
      AmountSplit(book, ids - {id}, x);
      assert ids - {id} - {x} == ids - {x} - {id};
      AmountSplit(book, ids - {x}, id);
    }
  }

  // The agent's rows created from one instant on and before another that were allowed and are
  // still waiting or authorized.
  function Counted(book: Book, tenant: string, agent: string, from: int, until: Option<int>): set<Id> {
    set id | id in book
      && book[id].intent.tenantId == tenant && book[id].intent.agentId == agent
      && from <= book[id].intent.createdAt && (until.None? || book[id].intent.createdAt < until.value)
      && book[id].intent.policyAllowed
      && (book[id].intent.status == AwaitingApproval || book[id].intent.status == AuthorizedNoDispatch)
  }

  lemma {:induction false} LiveSumIs(book: Book, ids: set<Id>, tenant: string, agent: string, from: int,
                                     until: Option<int>)
    requires ids <= book.Keys
    ensures LiveSum(book, ids, tenant, agent, from, until)
         == AmountSum(book, ids * Counted(book, tenant, agent, from, until))
  {
    var counted := Counted(book, tenant, agent, from, until);
    if ids == {} {
      assert ids * counted == {};
    } else {
      var id :| id in ids;
      SumSplit(book, ids, id, tenant, agent, from, until);
      LiveSumIs(book, ids - {id}, tenant, agent, from, until);
      assert (ids - {id}) * counted == ids * counted - {id};
      if id in counted {
        AmountSplit(book, ids * counted, id);
      } else {
        assert ids * counted - {id} == ids * counted;
      }
    }
  }

  // The exposure at a reading: what the agent's allowed rows created since that UTC midnight and
  // still waiting or authorized add up to.
  lemma {:induction false} DailyExposureIs(book: Book, tenant: string, agent: string, at: int)
    ensures DailyExposure(book, tenant, agent, at)
         == AmountSum(book, Counted(book, tenant, agent, at - at % 86_400_000, None))
  {
    assert DayStart(at) == at - at % 86_400_000;
    var counted := Counted(book, tenant, agent, DayStart(at), None);
    LiveSumIs(book, book.Keys, tenant, agent, DayStart(at), None);
    assert book.Keys * counted == counted;
  }

  // The total of a UTC day, likewise.
  lemma {:induction false} DayTotalIs(book: Book, tenant: string, agent: string, day: int)
    ensures DayTotal(book, tenant, agent, day)
         == AmountSum(book, Counted(book, tenant, agent, day * 86_400_000, Some((day + 1) * 86_400_000)))
  {
    var from, until := day * DAY_MS, Some((day + 1) * DAY_MS);
    LiveSumIs(book, book.Keys, tenant, agent, from, until);
    assert book.Keys * Counted(book, tenant, agent, from, until) == Counted(book, tenant, agent, from, until);
  }
}
