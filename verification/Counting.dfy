// Counting marks and kinds: the bridge between "exactly one match" and a unique index.
module Counting {
  import opened Evidence
  import opened Integrity

  ghost predicate OnlyTrueAt(marks: seq<bool>, k: int) {
    0 <= k < |marks| && marks[k] && forall i :: 0 <= i < |marks| && marks[i] ==> i == k
  }

  lemma {:induction false} NoneTrue(marks: seq<bool>)
    ensures CountTrue(marks) == 0 <==> forall i :: 0 <= i < |marks| ==> !marks[i]
  {
    if marks != [] {
      var init := marks[..|marks| - 1];
      NoneTrue(init);
      assert forall i :: 0 <= i < |init| ==> init[i] == marks[i];
    }
  }

  lemma {:induction false} OneTrue(marks: seq<bool>) returns (k: int)
    requires CountTrue(marks) == 1
    ensures OnlyTrueAt(marks, k)
  {
    var init := marks[..|marks| - 1];
    assert forall i :: 0 <= i < |init| ==> init[i] == marks[i];
    if marks[|marks| - 1] {
      NoneTrue(init);
      k := |marks| - 1;
    } else {
      k := OneTrue(init);
    }
  }

  lemma {:induction false} UniqueTrue(marks: seq<bool>, k: int)
    requires OnlyTrueAt(marks, k)
    ensures CountTrue(marks) == 1
  {
    var init := marks[..|marks| - 1];
    assert forall i :: 0 <= i < |init| ==> init[i] == marks[i];
    if k == |marks| - 1 { NoneTrue(init); } else { UniqueTrue(init, k); }
  }

  function Indices(events: seq<AuditEvent>, kind: EventType -> bool): set<int> {
    set i | 0 <= i < |events| && kind(events[i].body.eventType)
  }

  lemma {:induction false} IndicesCount(events: seq<AuditEvent>, kind: EventType -> bool)
    ensures |Indices(events, kind)| == |Select(events, kind)|
  {
    if events == [] {
      assert Indices(events, kind) == {};
    } else {
      var n := |events| - 1;
      var init := events[..n];
      IndicesCount(init, kind);
      if kind(events[n].body.eventType) {
        assert Indices(events, kind) == Indices(init, kind) + {n};
      } else {
        assert Indices(events, kind) == Indices(init, kind);
      }
    }
  }

  // No event of a kind, or one at a known place.
  lemma {:induction false} SelectNone(events: seq<AuditEvent>, kind: EventType -> bool)
    ensures |Select(events, kind)| == 0 <==> forall i :: 0 <= i < |events| ==> !kind(events[i].body.eventType)
  {
    if events != [] {
      var init := events[..|events| - 1];
      SelectNone(init, kind);
      assert forall i :: 0 <= i < |init| ==> init[i] == events[i];
      if kind(Last(events).body.eventType) { assert |Select(events, kind)| > 0; }
    }
  }

  lemma {:induction false} SetSplit<T>(a: set<T>, b: set<T>)
    requires a <= b && |a| >= |b|
    ensures a == b
  {
    if a != b {
      var x :| x in b && x !in a;
      assert a <= b - {x};
      Subset(a, b - {x});
    }
  }

  lemma {:induction false} Subset<T>(a: set<T>, b: set<T>)
    requires a <= b
    ensures |a| <= |b|
  {
    assert b == a + (b - a);
    assert |b| == |a| + |b - a|;
  }
}
