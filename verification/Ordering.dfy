// The orders the source sorts by, and the sort itself.
//
// JavaScript compares strings by UTF-16 code unit (compareCodeUnits, and the
// default Array.prototype.sort), so a text is compared as its sequence of units.
module Ordering {
  // What a record is sorted on: a number first, then a text by code units.
  datatype Key = Key(rank: int, units: seq<int>)

  predicate UnitsLeq(a: seq<int>, b: seq<int>) {
    if a == [] then true
    else if b == [] then false
    else if a[0] != b[0] then a[0] < b[0]
    else UnitsLeq(a[1..], b[1..])
  }

  predicate KeyLeq(a: Key, b: Key) {
    a.rank < b.rank || (a.rank == b.rank && UnitsLeq(a.units, b.units))
  }

  // A stored string as compareCodeUnits sees it. The characters of a string here are Unicode
  // scalars, which order as their code units do below U+10000; only identifiers, which are
  // ASCII, are ever compared.
  function Units(text: string): (units: seq<int>)
    ensures |units| == |text| && forall i :: 0 <= i < |text| ==> units[i] == text[i] as int
  {
    seq(|text|, i requires 0 <= i < |text| => text[i] as int)
  }

  lemma {:induction false} UnitsTotal(a: seq<int>, b: seq<int>)
    ensures UnitsLeq(a, b) || UnitsLeq(b, a)
  {
    if a != [] && b != [] && a[0] == b[0] { UnitsTotal(a[1..], b[1..]); }
  }

  lemma {:induction false} UnitsAntisymmetric(a: seq<int>, b: seq<int>)
    requires UnitsLeq(a, b) && UnitsLeq(b, a)
    ensures a == b
  {
    if a != [] && b != [] {
      UnitsAntisymmetric(a[1..], b[1..]);
      assert a == [a[0]] + a[1..] && b == [b[0]] + b[1..];
    }
  }

  lemma {:induction false} UnitsTransitive(a: seq<int>, b: seq<int>, c: seq<int>)
    requires UnitsLeq(a, b) && UnitsLeq(b, c)
    ensures UnitsLeq(a, c)
  {
    if a != [] && b != [] && c != [] && a[0] == b[0] == c[0] { UnitsTransitive(a[1..], b[1..], c[1..]); }
  }

  // Equal up to place k, where a ends or has the smaller unit.
  predicate PartsAt(a: seq<int>, b: seq<int>, k: int) {
    0 <= k <= |a| && k < |b| && a[..k] == b[..k] && (k == |a| || a[k] < b[k])
  }

  // One text comes strictly before another: it is a proper beginning of it, or has the
  // smaller unit at the first place where they differ.
  ghost predicate ComesBefore(a: seq<int>, b: seq<int>) { exists k :: PartsAt(a, b, k) }

  lemma {:induction false} PartsLater(a: seq<int>, b: seq<int>, k: int)
    requires PartsAt(a, b, k) && a != []
    ensures k > 0 ==> a[0] == b[0]
  {
    if k > 0 { assert a[..k][0] == b[..k][0]; }
  }

  // The recursive comparison is that positional order.
  lemma {:induction false} UnitsLeqPositional(a: seq<int>, b: seq<int>)
    ensures UnitsLeq(a, b) <==> a == b || ComesBefore(a, b)
    ensures !ComesBefore(a, a)
  {
    forall k ensures !PartsAt(a, a, k) { }
    if a == [] {
      assert b != [] ==> PartsAt(a, b, 0);
    } else if b != [] {
      if a[0] != b[0] {
        assert a[0] < b[0] ==> PartsAt(a, b, 0);
        forall k | PartsAt(a, b, k) ensures k == 0 { PartsLater(a, b, k); }
      } else {
        UnitsLeqPositional(a[1..], b[1..]);
        TailsPart(a, b);
        assert a == [a[0]] + a[1..] && b == [b[0]] + b[1..];
      }
    }
  }

  lemma {:induction false} TailsPart(a: seq<int>, b: seq<int>)
    requires a != [] && b != [] && a[0] == b[0]
    ensures ComesBefore(a, b) <==> ComesBefore(a[1..], b[1..])
  {
    if ComesBefore(a, b) {
      var k :| PartsAt(a, b, k);
      assert a[1..][..k - 1] == a[..k][1..] && b[1..][..k - 1] == b[..k][1..];
      assert PartsAt(a[1..], b[1..], k - 1);
    }
    if ComesBefore(a[1..], b[1..]) {
      var k :| PartsAt(a[1..], b[1..], k);
      assert a[..k + 1] == [a[0]] + a[1..][..k] && b[..k + 1] == [b[0]] + b[1..][..k];
      assert PartsAt(a, b, k + 1);
    }
  }

  lemma {:induction false} KeyTotal(a: Key, b: Key)
    ensures KeyLeq(a, b) || KeyLeq(b, a)
  {
    UnitsTotal(a.units, b.units);
  }

  lemma {:induction false} KeyAntisymmetric(a: Key, b: Key)
    requires KeyLeq(a, b) && KeyLeq(b, a)
    ensures a == b
  {
    UnitsAntisymmetric(a.units, b.units);
  }

  lemma {:induction false} KeyTransitive(a: Key, b: Key, c: Key)
    requires KeyLeq(a, b) && KeyLeq(b, c)
    ensures KeyLeq(a, c)
  {
    if a.rank == b.rank == c.rank { UnitsTransitive(a.units, b.units, c.units); }
  }

  // Stable insertion sort: what Array.prototype.sort returns for a total preorder.
  function Insert<T>(x: T, xs: seq<T>, key: T -> Key): seq<T> {
    if xs == [] then [x]
    else if KeyLeq(key(x), key(xs[0])) then [x] + xs
    else [xs[0]] + Insert(x, xs[1..], key)
  }

  function SortOn<T>(xs: seq<T>, key: T -> Key): seq<T> {
    if xs == [] then [] else Insert(xs[0], SortOn(xs[1..], key), key)
  }

  ghost predicate SortedOn<T>(xs: seq<T>, key: T -> Key) {
    forall i, j :: 0 <= i < j < |xs| ==> KeyLeq(key(xs[i]), key(xs[j]))
  }

  ghost predicate DistinctKeys<T>(xs: seq<T>, key: T -> Key) {
    forall i, j :: 0 <= i < j < |xs| ==> key(xs[i]) != key(xs[j])
  }

  lemma {:induction false} InsertKeeps<T>(x: T, xs: seq<T>, key: T -> Key)
    ensures multiset(Insert(x, xs, key)) == multiset(xs) + multiset{x}
    ensures |Insert(x, xs, key)| == |xs| + 1
  {
    if xs != [] {
      assert xs == [xs[0]] + xs[1..];
      if !KeyLeq(key(x), key(xs[0])) { InsertKeeps(x, xs[1..], key); }
    }
  }

  lemma {:induction false} InsertSorted<T>(x: T, xs: seq<T>, key: T -> Key)
    requires SortedOn(xs, key)
    ensures SortedOn(Insert(x, xs, key), key)
  {
    if xs == [] {
    } else if KeyLeq(key(x), key(xs[0])) {
      forall j | 0 <= j < |xs| ensures KeyLeq(key(x), key(xs[j])) {
        if j > 0 { KeyTransitive(key(x), key(xs[0]), key(xs[j])); }
      }
    } else {
      var rest := Insert(x, xs[1..], key);
      InsertSorted(x, xs[1..], key);
      InsertKeeps(x, xs[1..], key);
      KeyTotal(key(x), key(xs[0]));
      forall j | 0 <= j < |rest| ensures KeyLeq(key(xs[0]), key(rest[j])) {
        assert rest[j] in multiset(rest);
        assert rest[j] in multiset(xs[1..]) || rest[j] == x;
        if rest[j] in multiset(xs[1..]) {
          assert rest[j] in xs[1..];
          var k :| 0 <= k < |xs[1..]| && xs[1..][k] == rest[j];
          assert xs[k + 1] == rest[j];
        }
      }
    }
  }

  lemma {:induction false} SortOnSorts<T>(xs: seq<T>, key: T -> Key)
    ensures SortedOn(SortOn(xs, key), key)
    ensures multiset(SortOn(xs, key)) == multiset(xs)
    ensures |SortOn(xs, key)| == |xs|
  {
    if xs != [] {
      assert xs == [xs[0]] + xs[1..];
      SortOnSorts(xs[1..], key);
      InsertSorted(xs[0], SortOn(xs[1..], key), key);
      InsertKeeps(xs[0], SortOn(xs[1..], key), key);
    }
  }

  lemma {:induction false} SortedIsFixed<T>(xs: seq<T>, key: T -> Key)
    requires SortedOn(xs, key)
    ensures SortOn(xs, key) == xs
  {
    if xs != [] {
      assert xs == [xs[0]] + xs[1..];
      SortedIsFixed(xs[1..], key);
    }
  }

  lemma {:induction false} SortedHead<T>(xs: seq<T>, ys: seq<T>, key: T -> Key)
    requires multiset(xs) == multiset(ys) && xs != [] && ys != []
    requires SortedOn(xs, key) && SortedOn(ys, key)
    ensures key(xs[0]) == key(ys[0])
  {
    assert xs[0] in multiset(ys) && ys[0] in multiset(xs);
    var i :| 0 <= i < |ys| && ys[i] == xs[0];
    var j :| 0 <= j < |xs| && xs[j] == ys[0];
    KeyTotal(key(xs[0]), key(xs[0]));
    KeyTotal(key(ys[0]), key(ys[0]));
    assert KeyLeq(key(ys[0]), key(ys[i])) && KeyLeq(key(xs[0]), key(xs[j]));
    KeyAntisymmetric(key(xs[0]), key(ys[0]));
  }

  lemma {:induction false} HeadsEqual<T>(xs: seq<T>, ys: seq<T>, key: T -> Key)
    requires multiset(xs) == multiset(ys) && DistinctKeys(xs, key)
    requires xs != [] && ys != [] && key(xs[0]) == key(ys[0])
    ensures xs[0] == ys[0]
  {
    assert ys[0] in multiset(xs);
    var j :| 0 <= j < |xs| && xs[j] == ys[0];
    assert j == 0;
  }

  lemma {:induction false} TailsSorted<T>(xs: seq<T>, ys: seq<T>, key: T -> Key)
    requires multiset(xs) == multiset(ys) && DistinctKeys(xs, key) && SortedOn(xs, key) && SortedOn(ys, key)
    requires xs != [] && ys != [] && xs[0] == ys[0]
    ensures multiset(xs[1..]) == multiset(ys[1..]) && DistinctKeys(xs[1..], key)
    ensures SortedOn(xs[1..], key) && SortedOn(ys[1..], key)
  {
    hide KeyLeq;
    TailOf(xs);
    TailOf(ys);
  }

  lemma {:induction false} TailOf<T>(xs: seq<T>)
    requires xs != []
    ensures multiset(xs[1..]) == multiset(xs) - multiset{xs[0]}
  {
    assert xs == [xs[0]] + xs[1..];
  }

  // Distinct keys leave one sorted arrangement, so sorting forgets the original order.
  lemma {:induction false} SortedUnique<T>(xs: seq<T>, ys: seq<T>, key: T -> Key)
    requires multiset(xs) == multiset(ys) && DistinctKeys(xs, key)
    requires SortedOn(xs, key) && SortedOn(ys, key)
    ensures xs == ys
  {
    assert |multiset(xs)| == |xs| && |multiset(ys)| == |ys|;
    if xs != [] {
      SortedHead(xs, ys, key);
      hide KeyLeq, SortedOn;
      assert xs == [xs[0]] + xs[1..] && ys == [ys[0]] + ys[1..];
      HeadsEqual(xs, ys, key);
      TailsSorted(xs, ys, key);
      SortedUnique(xs[1..], ys[1..], key);
    }
  }

  // In a sorted sequence with distinct keys, whatever stands earlier has the smaller number, or
  // an equal one and the text that comes strictly before.
  lemma {:induction false} SortedStrictly<T>(xs: seq<T>, key: T -> Key, i: int, j: int)
    requires SortedOn(xs, key) && DistinctKeys(xs, key) && 0 <= i < j < |xs|
    ensures var a, b := key(xs[i]), key(xs[j]);
      a.rank < b.rank || (a.rank == b.rank && ComesBefore(a.units, b.units))
  {
    UnitsLeqPositional(key(xs[i]).units, key(xs[j]).units);
  }
}
