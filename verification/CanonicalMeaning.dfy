// canonicalJson identifies values: two of them share a text exactly when they have the same
// members under the same names, whatever the order and whatever undefined members they carry.
module CanonicalMeaning {
  import opened Ordering
  import opened Json
  import opened CanonicalJson
  import opened CanonicalText

  // ----- normal forms -----

  lemma {:induction false} InNormalMembers(members: seq<Entry>, x: Entry)
    ensures x in NormalMembers(members) <==>
      exists i :: 0 <= i < |members| && !members[i].value.Undefined?
        && x == Entry(members[i].name, Normal(members[i].value))
  {
    hide Normal;
    if members != [] {
      InNormalMembers(members[1..], x);
      assert forall i :: 0 < i < |members| ==> members[i] == members[1..][i - 1];
      if x in NormalMembers(members[1..]) {
        var i :| 0 <= i < |members[1..]| && !members[1..][i].value.Undefined?
          && x == Entry(members[1..][i].name, Normal(members[1..][i].value));
        assert members[i + 1] == members[1..][i];
      }
    }
  }

  lemma {:induction false} NormalNames(members: seq<Entry>)
    requires NamesDistinct(members)
    ensures NamesDistinct(NormalMembers(members))
  {
    hide Normal;
    if members != [] {
      var e, tail := members[0], members[1..];
      NormalNames(tail);
      forall k | 0 <= k < |NormalMembers(tail)| ensures NormalMembers(tail)[k].name != e.name {
        InNormalMembers(tail, NormalMembers(tail)[k]);
      }
    }
  }

  lemma {:induction false} InsertNames(x: Entry, xs: seq<Entry>)
    requires NamesDistinct(xs) && forall i :: 0 <= i < |xs| ==> xs[i].name != x.name
    ensures NamesDistinct(Insert(x, xs, NameKey))
  {
    if xs != [] && !KeyLeq(NameKey(x), NameKey(xs[0])) {
      var rest := Insert(x, xs[1..], NameKey);
      InsertNames(x, xs[1..]);
      InsertKeeps(x, xs[1..], NameKey);
      forall k | 0 <= k < |rest| ensures rest[k].name != xs[0].name {
        assert rest[k] in multiset(rest);
        assert rest[k] == x || rest[k] in xs[1..];
      }
    }
  }

  lemma {:induction false} SortNames(xs: seq<Entry>)
    requires NamesDistinct(xs)
    ensures NamesDistinct(SortOn(xs, NameKey))
  {
    if xs != [] {
      SortNames(xs[1..]);
      var sorted := SortOn(xs[1..], NameKey);
      SortOnSorts(xs[1..], NameKey);
      forall i | 0 <= i < |sorted| ensures sorted[i].name != xs[0].name {
        assert sorted[i] in multiset(xs[1..]);
        assert sorted[i] in xs[1..];
      }
      InsertNames(xs[0], sorted);
    }
  }

  lemma {:induction false} InSorted(xs: seq<Entry>, x: Entry)
    ensures x in SortOn(xs, NameKey) <==> x in xs
  {
    SortOnSorts(xs, NameKey);
    assert x in multiset(SortOn(xs, NameKey)) <==> x in multiset(xs);
  }

  // The normal form of what canonicalJson accepts is what JSON.parse can produce.
  lemma {:induction false} NormalIsPlain(v: Js)
    requires Serializable(v) && WellKeyed(v)
    ensures Plain(Normal(v))
    decreases v, 1
  {
    match v
    case Arr(items) => NormalItemsPlain(items);
    case Obj(members) => NormalMembersPlain(members);
    case _ =>
  }

  lemma {:induction false} NormalItemsPlain(items: seq<Js>)
    requires forall i :: 0 <= i < |items| ==> Serializable(items[i]) && WellKeyed(items[i])
    ensures forall i :: 0 <= i < |NormalItems(items)| ==> Plain(NormalItems(items)[i])
    decreases items, 0
  {
    if items != [] {
      NormalIsPlain(items[0]);
      NormalItemsPlain(items[1..]);
    }
  }

  lemma {:induction false} NormalMembersPlain(members: seq<Entry>)
    requires NamesDistinct(members)
    requires forall i :: 0 <= i < |members| ==> members[i].value.Undefined? || Serializable(members[i].value)
    requires forall i :: 0 <= i < |members| ==> WellKeyed(members[i].value)
    ensures Plain(Obj(SortOn(NormalMembers(members), NameKey)))
    decreases members, 0
  {
    var sorted := SortOn(NormalMembers(members), NameKey);
    NormalNames(members);
    SortNames(NormalMembers(members));
    forall k | 0 <= k < |sorted| ensures Plain(sorted[k].value) {
      InSorted(NormalMembers(members), sorted[k]);
      InNormalMembers(members, sorted[k]);
      var i :| 0 <= i < |members| && !members[i].value.Undefined?
        && sorted[k] == Entry(members[i].name, Normal(members[i].value));
      NormalIsPlain(members[i].value);
    }
  }

  // ----- normalizing twice changes nothing -----

  ghost predicate Settled(xs: seq<Entry>) {
    forall i :: 0 <= i < |xs| ==> !xs[i].value.Undefined? && Normal(xs[i].value) == xs[i].value
  }

  lemma {:induction false} SettledStays(xs: seq<Entry>)
    requires Settled(xs)
    ensures NormalMembers(xs) == xs
  {
    hide Normal;
    if xs != [] { SettledStays(xs[1..]); }
  }

  lemma {:induction false} NormalFixed(v: Js)
    ensures Normal(Normal(v)) == Normal(v)
    decreases v, 1
  {
    match v
    case Arr(items) => NormalItemsFixed(items);
    case Obj(members) =>
      MembersSettle(members);
      var sorted := SortOn(NormalMembers(members), NameKey);
      SettledStays(sorted);
      SortOnSorts(NormalMembers(members), NameKey);
      SortedIsFixed(sorted, NameKey);
    case _ =>
  }

  lemma {:induction false} NormalItemsFixed(items: seq<Js>)
    ensures NormalItems(NormalItems(items)) == NormalItems(items)
    decreases items, 0
  {
    if items != [] {
      NormalFixed(items[0]);
      NormalItemsFixed(items[1..]);
      hide Normal;
      assert ([Normal(items[0])] + NormalItems(items[1..]))[1..] == NormalItems(items[1..]);
    }
  }

  lemma {:induction false} MembersSettle(members: seq<Entry>)
    ensures Settled(SortOn(NormalMembers(members), NameKey))
    decreases members, 0
  {
    var sorted := SortOn(NormalMembers(members), NameKey);
    forall k | 0 <= k < |sorted| ensures !sorted[k].value.Undefined? && Normal(sorted[k].value) == sorted[k].value {
      InSorted(NormalMembers(members), sorted[k]);
      InNormalMembers(members, sorted[k]);
      var i :| 0 <= i < |members| && !members[i].value.Undefined?
        && sorted[k] == Entry(members[i].name, Normal(members[i].value));
      NormalFixed(members[i].value);
    }
  }

  // ----- the round trips -----

  // JSON.parse(canonicalJson(v)) is the normal form of v.
  lemma {:induction false} CanonicalReadsBack(v: Js)
    requires Serializable(v) && WellKeyed(v)
    ensures Canonical(v).Written? && Parse(Canonical(v).text) == Parsed(Normal(v), [])
  {
    CanonicalPrints(v);
    NormalIsPlain(v);
    ValueReads(Normal(v), []);
    assert Printed(Normal(v)) + [] == Printed(Normal(v));
  }

  // Every record in a value lists its members in strict code-unit order of their names.
  ghost predicate NamesInOrder(v: Js) {
    match v
    case Arr(items) => forall i :: 0 <= i < |items| ==> NamesInOrder(items[i])
    case Obj(members) =>
      && (forall i, j :: 0 <= i < j < |members| ==> ComesBefore(members[i].name, members[j].name))
      && (forall i :: 0 <= i < |members| ==> NamesInOrder(members[i].value))
    case _ => true
  }

  lemma {:induction false} NormalInOrder(v: Js)
    requires WellKeyed(v)
    ensures NamesInOrder(Normal(v))
    decreases v
  {
    match v
    case Arr(items) =>
      NormalItemsAt(items);
      forall i | 0 <= i < |items| ensures NamesInOrder(Normal(items[i])) { NormalInOrder(items[i]); }
    case Obj(members) =>
      var sorted := SortOn(NormalMembers(members), NameKey);
      SortedNames(NormalMembers(members)) by { NormalNames(members); }
      forall k | 0 <= k < |sorted| ensures NamesInOrder(sorted[k].value) {
        InSorted(NormalMembers(members), sorted[k]);
        InNormalMembers(members, sorted[k]);
        var i :| 0 <= i < |members| && !members[i].value.Undefined?
          && sorted[k] == Entry(members[i].name, Normal(members[i].value));
        NormalInOrder(members[i].value);
      }
    case _ =>
  }

  lemma {:induction false} SortedNames(xs: seq<Entry>)
    requires NamesDistinct(xs)
    ensures var sorted := SortOn(xs, NameKey);
      forall i, j :: 0 <= i < j < |sorted| ==> ComesBefore(sorted[i].name, sorted[j].name)
  {
    hide ComesBefore, SortOn;
    var sorted := SortOn(xs, NameKey);
    SortNames(xs);
    SortOnSorts(xs, NameKey);
    forall i, j | 0 <= i < j < |sorted| ensures ComesBefore(sorted[i].name, sorted[j].name) {
      SortedStrictly(sorted, NameKey, i, j);
    }
  }

  // What is written and read back has the same members at every level, each record's in strict
  // order of their names: a beginning first, otherwise by the first unit that differs.
  lemma {:induction false} CanonicalInOrder(v: Js)
    requires Serializable(v) && WellKeyed(v)
    ensures Canonical(v).Written? && Parse(Canonical(v).text).Parsed?
    ensures var read := Parse(Canonical(v).text).value;
      Same(v, read) && Canonical(v).text == Printed(read) && NamesInOrder(read)
  {
    hide Same, Canonical, NamesInOrder, Parse, Plain, WellKeyed, Serializable;
    CanonicalReadsBack(v);
    CanonicalPrints(v);
    NormalInOrder(v);
    NormalIsPlain(v);
    PlainSerializes(Normal(v));
    NormalFixed(v);
    SameNormal(v, Normal(v));
  }

  // canonicalJson(JSON.parse(canonicalJson(v))) == canonicalJson(v)
  lemma {:induction false} CanonicalIsFixed(v: Js)
    requires Serializable(v) && WellKeyed(v)
    ensures Canonical(v).Written? && Parse(Canonical(v).text).Parsed?
    ensures Canonical(Parse(Canonical(v).text).value) == Canonical(v)
  {
    CanonicalReadsBack(v);
    CanonicalPrints(v);
    NormalIsPlain(v);
    PlainSerializes(Normal(v));
    CanonicalPrints(Normal(v));
    NormalFixed(v);
  }

  lemma {:induction false} PlainSerializes(v: Js)
    requires Plain(v)
    ensures Serializable(v) && WellKeyed(v)
    decreases v
  {
    match v
    case Arr(items) =>
      forall i | 0 <= i < |items| ensures Serializable(items[i]) && WellKeyed(items[i]) { PlainSerializes(items[i]); }
    case Obj(members) =>
      forall i | 0 <= i < |members|
        ensures Serializable(members[i].value) && WellKeyed(members[i].value)
      {
        PlainSerializes(members[i].value);
      }
    case _ =>
  }

  // ----- sameness, defined without any text or order -----

  ghost predicate Same(v: Js, w: Js)
    decreases v
  {
    match v
    case Arr(items) => w.Arr? && |items| == |w.items| && forall i :: 0 <= i < |items| ==> Same(items[i], w.items[i])
    case Obj(members) =>
      && w.Obj?
      && (forall i :: 0 <= i < |members| ==>
            members[i].value.Undefined?
            || (exists j :: 0 <= j < |w.members| && w.members[j].name == members[i].name
                            && Same(members[i].value, w.members[j].value)))
      && (forall j :: 0 <= j < |w.members| ==> w.members[j].value.Undefined? || Defines(members, w.members[j].name))
    case _ => v == w
  }

  ghost predicate Defines(members: seq<Entry>, name: Text) {
    exists i :: 0 <= i < |members| && members[i].name == name && !members[i].value.Undefined?
  }

  lemma {:induction false} DistinctCount(xs: seq<Entry>, x: Entry)
    requires NamesDistinct(xs)
    ensures multiset(xs)[x] == if x in xs then 1 else 0
  {
    if xs != [] {
      assert xs == [xs[0]] + xs[1..];
      DistinctCount(xs[1..], x);
    }
  }

  // Distinct names leave no room for order: the same elements sort to the same sequence.
  lemma {:induction false} SortedSame(a: seq<Entry>, b: seq<Entry>)
    requires NamesDistinct(a) && NamesDistinct(b)
    ensures SortOn(a, NameKey) == SortOn(b, NameKey) <==> (forall x :: x in a <==> x in b)
  {
    SortOnSorts(a, NameKey);
    SortOnSorts(b, NameKey);
    if forall x :: x in a <==> x in b {
      forall x ensures multiset(a)[x] == multiset(b)[x] { DistinctCount(a, x); DistinctCount(b, x); }
      assert multiset(a) == multiset(b);
      SortNames(a);
      SortedUnique(SortOn(a, NameKey), SortOn(b, NameKey), NameKey);
    }
    if SortOn(a, NameKey) == SortOn(b, NameKey) {
      forall x ensures x in a <==> x in b { InSorted(a, x); InSorted(b, x); }
    }
  }

  lemma {:induction false} NormalItemsAt(items: seq<Js>)
    ensures |NormalItems(items)| == |items|
    ensures forall i :: 0 <= i < |items| ==> NormalItems(items)[i] == Normal(items[i])
  {
    hide Normal;
    if items != [] { NormalItemsAt(items[1..]); }
  }

  // Sameness is equality of normal forms.
  lemma {:induction false} SameNormal(v: Js, w: Js)
    requires WellKeyed(v) && WellKeyed(w)
    ensures Same(v, w) <==> Normal(v) == Normal(w)
    decreases v, 2
  {
    match v
    case Arr(items) =>
      if w.Arr? {
        NormalItemsAt(items);
        NormalItemsAt(w.items);
        forall i | 0 <= i < |items| && i < |w.items|
          ensures Same(items[i], w.items[i]) <==> Normal(items[i]) == Normal(w.items[i])
        {
          SameNormal(items[i], w.items[i]);
        }
      }
    case Obj(members) =>
      if w.Obj? { SameMembers(members, w.members); }
    case _ =>
  }

  lemma {:induction false} SameMembers(ms: seq<Entry>, ws: seq<Entry>)
    requires WellKeyed(Obj(ms)) && WellKeyed(Obj(ws))
    ensures Same(Obj(ms), Obj(ws)) <==> SortOn(NormalMembers(ms), NameKey) == SortOn(NormalMembers(ws), NameKey)
    decreases ms, 1
  {
    NormalNames(ms);
    NormalNames(ws);
    SortedSame(NormalMembers(ms), NormalMembers(ws));
    forall i, j | 0 <= i < |ms| && 0 <= j < |ws|
      ensures Same(ms[i].value, ws[j].value) <==> Normal(ms[i].value) == Normal(ws[j].value)
    {
      SameNormal(ms[i].value, ws[j].value);
    }
    SameElements(ms, ws);
  }

  ghost predicate Matched(members: seq<Entry>, name: Text, value: Js) {
    exists j :: 0 <= j < |members| && members[j].name == name && Same(value, members[j].value)
  }

  // Every member of one is matched in the other exactly when its normal entry is there.
  lemma {:induction false} MatchedIn(ms: seq<Entry>, ws: seq<Entry>, i: nat)
    requires i < |ms| && !ms[i].value.Undefined?
    requires forall j :: 0 <= j < |ws| ==>
      (Same(ms[i].value, ws[j].value) <==> Normal(ms[i].value) == Normal(ws[j].value))
    ensures Matched(ws, ms[i].name, ms[i].value) <==> Entry(ms[i].name, Normal(ms[i].value)) in NormalMembers(ws)
  {
    var x := Entry(ms[i].name, Normal(ms[i].value));
    InNormalMembers(ws, x);
    NormalUndefined(ms[i].value);
    hide Same;
    if Matched(ws, ms[i].name, ms[i].value) {
      var j :| 0 <= j < |ws| && ws[j].name == ms[i].name && Same(ms[i].value, ws[j].value);
      NormalUndefined(ws[j].value);
    }
    if x in NormalMembers(ws) {
      var j :| 0 <= j < |ws| && !ws[j].value.Undefined? && x == Entry(ws[j].name, Normal(ws[j].value));
      assert Same(ms[i].value, ws[j].value);
    }
  }

  lemma {:induction false} NormalUndefined(v: Js)
    ensures Normal(v).Undefined? <==> v.Undefined?
  {
  }

  lemma {:induction false} SameElements(ms: seq<Entry>, ws: seq<Entry>)
    requires NamesDistinct(ms) && NamesDistinct(ws)
    requires forall i, j :: 0 <= i < |ms| && 0 <= j < |ws| ==>
      (Same(ms[i].value, ws[j].value) <==> Normal(ms[i].value) == Normal(ws[j].value))
    ensures Same(Obj(ms), Obj(ws)) <==> (forall x :: x in NormalMembers(ms) <==> x in NormalMembers(ws))
  {
    forall i | 0 <= i < |ms| && !ms[i].value.Undefined?
      ensures Matched(ws, ms[i].name, ms[i].value) <==> Entry(ms[i].name, Normal(ms[i].value)) in NormalMembers(ws)
    {
      MatchedIn(ms, ws, i);
    }
    if Same(Obj(ms), Obj(ws)) {
      forall x ensures x in NormalMembers(ms) <==> x in NormalMembers(ws) { SameHaves(ms, ws, x); }
    }
    if forall x :: x in NormalMembers(ms) <==> x in NormalMembers(ws) { HavesSame(ms, ws); }
  }

  lemma {:induction false} SameHaves(ms: seq<Entry>, ws: seq<Entry>, x: Entry)
    requires NamesDistinct(ms) && NamesDistinct(ws) && Same(Obj(ms), Obj(ws))
    requires forall i :: 0 <= i < |ms| && !ms[i].value.Undefined? ==>
      (Matched(ws, ms[i].name, ms[i].value) <==> Entry(ms[i].name, Normal(ms[i].value)) in NormalMembers(ws))
    ensures x in NormalMembers(ms) <==> x in NormalMembers(ws)
  {
    InNormalMembers(ms, x);
    InNormalMembers(ws, x);
    assert forall i :: 0 <= i < |ms| && !ms[i].value.Undefined? ==> Matched(ws, ms[i].name, ms[i].value);
    assert forall j :: 0 <= j < |ws| && !ws[j].value.Undefined? ==> Defines(ms, ws[j].name);
    hide Same, Matched, Normal;
    if x in NormalMembers(ms) {
      var i :| 0 <= i < |ms| && !ms[i].value.Undefined? && x == Entry(ms[i].name, Normal(ms[i].value));
      assert Matched(ws, ms[i].name, ms[i].value);
    }
    if x in NormalMembers(ws) {
      var j :| 0 <= j < |ws| && !ws[j].value.Undefined? && x == Entry(ws[j].name, Normal(ws[j].value));
      var i :| 0 <= i < |ms| && ms[i].name == ws[j].name && !ms[i].value.Undefined?;
      var y := Entry(ms[i].name, Normal(ms[i].value));
      assert Matched(ws, ms[i].name, ms[i].value);
      InNormalMembers(ws, y);
      var k :| 0 <= k < |ws| && !ws[k].value.Undefined? && y == Entry(ws[k].name, Normal(ws[k].value));
      assert k == j;
    }
  }

  lemma {:induction false} HavesSame(ms: seq<Entry>, ws: seq<Entry>)
    requires forall x :: x in NormalMembers(ms) <==> x in NormalMembers(ws)
    requires forall i :: 0 <= i < |ms| && !ms[i].value.Undefined? ==>
      (Matched(ws, ms[i].name, ms[i].value) <==> Entry(ms[i].name, Normal(ms[i].value)) in NormalMembers(ws))
    ensures Same(Obj(ms), Obj(ws))
  {
    forall i | 0 <= i < |ms| && !ms[i].value.Undefined? ensures Matched(ws, ms[i].name, ms[i].value) {
      InNormalMembers(ms, Entry(ms[i].name, Normal(ms[i].value)));
    }
    forall j | 0 <= j < |ws| && !ws[j].value.Undefined? ensures Defines(ms, ws[j].name) {
      var x := Entry(ws[j].name, Normal(ws[j].value));
      InNormalMembers(ws, x);
      InNormalMembers(ms, x);
      var i :| 0 <= i < |ms| && !ms[i].value.Undefined? && x == Entry(ms[i].name, Normal(ms[i].value));
    }
  }

  // ----- the main law -----

  // Equal texts if and only if the same value: canonicalJson is independent of member order
  // and of undefined members, and injective in everything else.
  lemma {:induction false} SameTextSameValue(v: Js, w: Js)
    requires Serializable(v) && WellKeyed(v) && Serializable(w) && WellKeyed(w)
    ensures Canonical(v) == Canonical(w) <==> Same(v, w)
  {
    hide Same, Canonical;
    SameNormal(v, w);
    CanonicalReadsBack(v);
    CanonicalReadsBack(w);
    CanonicalPrints(v);
    CanonicalPrints(w);
  }

  // Any reordering of a record's members, with undefined ones added or removed, is the same value.
  lemma {:induction false} OrderDoesNotMatter(ms: seq<Entry>, ws: seq<Entry>)
    requires WellKeyed(Obj(ms)) && WellKeyed(Obj(ws))
    requires forall e: Entry :: !e.value.Undefined? ==> (e in ms <==> e in ws)
    ensures Canonical(Obj(ms)) == Canonical(Obj(ws)) || (!Serializable(Obj(ms)) && !Serializable(Obj(ws)))
  {
    assert Serializable(Obj(ms)) <==> Serializable(Obj(ws));
    forall x ensures x in NormalMembers(ms) <==> x in NormalMembers(ws) {
      InNormalMembers(ms, x);
      InNormalMembers(ws, x);
    }
    NormalNames(ms);
    NormalNames(ws);
    SortedSame(NormalMembers(ms), NormalMembers(ws));
    CanonicalPrints(Obj(ms));
    CanonicalPrints(Obj(ws));
  }

  // ----- JSON.parse returns plain values -----

  lemma {:induction false} PutDistinct(members: seq<Entry>, name: Text, value: Js)
    requires NamesDistinct(members) && Plain(value) && forall i :: 0 <= i < |members| ==> Plain(members[i].value)
    ensures var after := Put(members, name, value);
      && NamesDistinct(after) && (forall i :: 0 <= i < |after| ==> Plain(after[i].value))
      && (forall i :: 0 <= i < |after| ==>
            after[i].name == name || exists j :: 0 <= j < |members| && members[j].name == after[i].name)
  {
    hide Plain;
    if members != [] && members[0].name != name {
      PutDistinct(members[1..], name, value);
      var rest := Put(members[1..], name, value);
      var after := Put(members, name, value);
      assert after == [members[0]] + rest;
      forall i | 0 <= i < |rest|
        ensures rest[i].name == name || exists j :: 1 <= j < |members| && members[j].name == rest[i].name
      {
        if rest[i].name != name {
          var j :| 0 <= j < |members[1..]| && members[1..][j].name == rest[i].name;
          assert members[j + 1].name == rest[i].name;
        }
      }
    }
  }

  lemma {:induction false} ReadPlain(s: Text)
    ensures ReadValue(s).Parsed? ==> Plain(ReadValue(s).value)
    decreases |s|, 0
  {
    if s != [] {
      if IsSpace(s[0]) { ReadPlain(s[1..]); }
      else if s[0] == 91 { ReadItemsPlain(s[1..], []); }
      else if s[0] == 123 { ReadMembersPlain(s[1..], []); }
      else { hide ReadString, ReadUnsigned; }
    }
  }

  lemma {:induction false} ReadItemsPlain(s: Text, done: seq<Js>)
    requires forall i :: 0 <= i < |done| ==> Plain(done[i])
    ensures ReadItems(s, done).Parsed? ==> Plain(ReadItems(s, done).value)
    decreases |s|, 1
  {
    ReadPlain(s);
    hide ReadValue;
    var item := ReadValue(s);
    if item.Parsed? {
      var after := SkipSpace(item.rest);
      if after != [] && after[0] == COMMA { ReadItemsPlain(after[1..], done + [item.value]); }
    }
  }

  lemma {:induction false} ReadMembersPlain(s: Text, done: seq<Entry>)
    requires NamesDistinct(done) && forall i :: 0 <= i < |done| ==> Plain(done[i].value)
    ensures ReadMembers(s, done).Parsed? ==> Plain(ReadMembers(s, done).value)
    decreases |s|, 1
  {
    hide ReadString, NamesDistinct;
    var name := ReadString(SkipSpace(s));
    if name.Parsed? {
      var colon := SkipSpace(name.rest);
      if colon != [] && colon[0] == COLON {
        ReadPlain(colon[1..]);
        hide ReadValue;
        var value := ReadValue(colon[1..]);
        if value.Parsed? {
          PutDistinct(done, name.value, value.value);
          var after := SkipSpace(value.rest);
          if after != [] && after[0] == COMMA { ReadMembersPlain(after[1..], Put(done, name.value, value.value)); }
        }
      }
    }
  }

  // ----- the text of a value whose members are in order, letter by letter -----

  lemma {:induction false} WordsAre()
    ensures Printed(Null) == ['n' as int, 'u' as int, 'l' as int, 'l' as int]
    ensures Printed(Bool(true)) == ['t' as int, 'r' as int, 'u' as int, 'e' as int]
    ensures Printed(Bool(false)) == ['f' as int, 'a' as int, 'l' as int, 's' as int, 'e' as int]
    ensures Printed(Arr([])) == ['[' as int, ']' as int] && Printed(Obj([])) == ['{' as int, '}' as int]
  {
  }

  lemma {:induction false} BracketsAre(items: seq<Js>, members: seq<Entry>)
    ensures Printed(Arr(items)) == ['[' as int] + PrintedItems(items) + [']' as int]
    ensures Printed(Obj(members)) == ['{' as int] + PrintedMembers(members) + ['}' as int]
  {
    hide PrintedItems, PrintedMembers;
  }

  // Elements stand between brackets with commas between them.
  lemma {:induction false} ElementsAre(first: Js, items: seq<Js>)
    ensures Printed(Arr([first])) == ['[' as int] + Printed(first) + [']' as int]
    ensures items != [] ==>
      Printed(Arr([first] + items)) == ['[' as int] + Printed(first) + [',' as int] + Printed(Arr(items))[1..]
  {
    hide Printed;
    BracketsAre([first], []);
    BracketsAre(items, []);
    BracketsAre([first] + items, []);
    assert ([first] + items)[1..] == items;
    assert Printed(Arr(items))[1..] == PrintedItems(items) + [93];
    assert [91] + (Printed(first) + []) + [93] == [91] + Printed(first) + [93];
  }

  // Members stand between braces, each a quoted name, a colon and its value.
  lemma {:induction false} MembersAre(first: Entry, members: seq<Entry>)
    ensures var text := Quote(first.name) + [':' as int] + Printed(first.value);
      && Printed(Obj([first])) == ['{' as int] + text + ['}' as int]
      && (members != [] ==>
            Printed(Obj([first] + members)) == ['{' as int] + text + [',' as int] + Printed(Obj(members))[1..])
  {
    hide Quote, Printed;
    BracketsAre([], [first]);
    BracketsAre([], members);
    BracketsAre([], [first] + members);
    assert ([first] + members)[1..] == members;
    assert Printed(Obj(members))[1..] == PrintedMembers(members) + [125];
    var text := MemberText(first.name, Printed(first.value));
    assert [123] + (text + []) + [125] == [123] + text + [125];
  }

  // ----- which error is raised -----

  lemma {:induction false} ErrorsAre()
    ensures Canonical(Hole) == Fails(SparseArray) && Canonical(NonFinite) == Fails(NonFiniteNumber)
    ensures Canonical(Undefined) == Canonical(Unsupported) == Fails(UnsupportedValue)
  {
  }

  lemma {:induction false} ItemFails(items: seq<Js>, i: nat)
    requires i < |items| && Canonical(items[i]).Fails?
    requires forall k :: 0 <= k < i ==> Canonical(items[k]).Written?
    ensures GatherItems(items) == Failed(Canonical(items[i]).error)
  {
    hide Canonical;
    if i > 0 { ItemFails(items[1..], i - 1); }
  }

  lemma {:induction false} PartFails(parts: seq<Part>, i: nat)
    requires i < |parts| && parts[i].outcome.Fails?
    requires forall k :: 0 <= k < i ==> parts[k].outcome.Written?
    ensures GatherParts(parts) == Failed(parts[i].outcome.error)
  {
    if i > 0 { PartFails(parts[1..], i - 1); }
  }

  lemma {:induction false} InParts(members: seq<Entry>, p: Part)
    ensures p in Parts(members) <==>
      exists k :: 0 <= k < |members| && !members[k].value.Undefined?
        && p == Part(members[k].name, Canonical(members[k].value))
  {
    hide Canonical;
    if members != [] {
      InParts(members[1..], p);
      assert forall k :: 0 < k < |members| ==> members[k] == members[1..][k - 1];
      if p in Parts(members[1..]) {
        var k :| 0 <= k < |members[1..]| && !members[1..][k].value.Undefined?
          && p == Part(members[1..][k].name, Canonical(members[1..][k].value));
        assert members[k + 1] == members[1..][k];
      }
    }
  }

  // An array fails as its first failing element does.
  lemma {:induction false} ArrayFails(items: seq<Js>, i: nat)
    requires i < |items| && Canonical(items[i]).Fails?
    requires forall k :: 0 <= k < i ==> Canonical(items[k]).Written?
    ensures Canonical(Arr(items)) == Canonical(items[i])
  {
    ItemFails(items, i);
    hide GatherItems;
  }

  // A record fails as the failing member does whose name comes first.
  lemma {:induction false} RecordFails(members: seq<Entry>, i: nat)
    requires i < |members| && !members[i].value.Undefined? && Canonical(members[i].value).Fails?
    requires forall k :: 0 <= k < |members| && !members[k].value.Undefined? && Canonical(members[k].value).Fails? ==>
      k == i || ComesBefore(members[i].name, members[k].name)
    ensures Canonical(Obj(members)) == Canonical(members[i].value)
  {
    hide Canonical, ComesBefore, Parts, SortOn;
    var sorted, p := SortOn(Parts(members), PartKey), Part(members[i].name, Canonical(members[i].value));
    SortOnSorts(Parts(members), PartKey);
    InParts(members, p);
    assert p in multiset(sorted);
    var j := FirstFailure(sorted);
    assert sorted[j] in multiset(Parts(members));
    InParts(members, sorted[j]);
    var k :| 0 <= k < |members| && !members[k].value.Undefined?
      && sorted[j] == Part(members[k].name, Canonical(members[k].value));
    var n :| 0 <= n < |sorted| && sorted[n] == p;
    FirstInOrder(sorted, j, n);
    PartFails(sorted, j);
    RecordOutcome(members);
  }

  lemma {:induction false} RecordOutcome(members: seq<Entry>)
    ensures Canonical(Obj(members)) == Enclosed(123, GatherParts(SortOn(Parts(members), PartKey)), 125)
  {
  }

  lemma {:induction false} FirstFailure(parts: seq<Part>) returns (j: nat)
    requires exists k :: 0 <= k < |parts| && parts[k].outcome.Fails?
    ensures j < |parts| && parts[j].outcome.Fails? && forall k :: 0 <= k < j ==> parts[k].outcome.Written?
  {
    if parts[0].outcome.Fails? {
      j := 0;
    } else {
      var k :| 0 <= k < |parts| && parts[k].outcome.Fails?;
      assert parts[1..][k - 1].outcome.Fails?;
      var rest := FirstFailure(parts[1..]);
      j := rest + 1;
    }
  }

  // What stands no later in a sorted sequence has no later a name.
  lemma {:induction false} FirstInOrder(sorted: seq<Part>, j: nat, n: nat)
    requires SortedOn(sorted, PartKey) && j < |sorted| && n < |sorted|
    requires sorted[n].outcome.Fails? && forall k :: 0 <= k < j ==> sorted[k].outcome.Written?
    ensures !ComesBefore(sorted[n].name, sorted[j].name)
  {
    assert j <= n;
    UnitsLeqPositional(sorted[n].name, sorted[j].name);
    UnitsLeqPositional(sorted[j].name, sorted[j].name);
    if j < n && UnitsLeq(sorted[n].name, sorted[j].name) { UnitsAntisymmetric(sorted[n].name, sorted[j].name); }
  }
}
