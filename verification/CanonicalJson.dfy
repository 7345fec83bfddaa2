// canonicalJson: one text per JSON value, whatever order its members were given in.
module CanonicalJson {
  import opened Ordering
  import opened Json

  datatype CanonError = SparseArray | NonFiniteNumber | UnsupportedValue

  datatype Outcome = Written(text: Text) | Fails(error: CanonError)

  // Member texts gathered left to right, up to the first failure.
  datatype Gathered = Texts(texts: seq<Text>) | Failed(error: CanonError)

  datatype Part = Part(name: Text, outcome: Outcome)

  function PartKey(p: Part): Key { Key(0, p.name) }

  function MemberText(name: Text, text: Text): Text { Quote(name) + [COLON] + text }

  function MemberOutcome(p: Part): Outcome {
    if p.outcome.Fails? then p.outcome else Written(MemberText(p.name, p.outcome.text))
  }

  function GatherOne(first: Outcome, more: Gathered): Gathered {
    if first.Fails? then Failed(first.error)
    else if more.Failed? then more
    else Texts([first.text] + more.texts)
  }

  function GatherParts(parts: seq<Part>): Gathered {
    if parts == [] then Texts([]) else GatherOne(MemberOutcome(parts[0]), GatherParts(parts[1..]))
  }

  function Enclosed(opening: Unit, inner: Gathered, closing: Unit): Outcome {
    if inner.Failed? then Fails(inner.error) else Written([opening] + Join(inner.texts) + [closing])
  }

  // What canonicalize returns or throws.
  function Canonical(v: Js): Outcome {
    match v
    case Null => Written(NULL_TEXT)
    case Bool(flag) => Written(if flag then TRUE_TEXT else FALSE_TEXT)
    case Num(n) => Written(Decimal(n))
    case Frac(f) => Written(FractionText(f))
    case Str(text) => Written(Quote(text))
    case NonFinite => Fails(NonFiniteNumber)
    case Hole => Fails(SparseArray)
    case Undefined | Unsupported => Fails(UnsupportedValue)
    case Arr(items) => Enclosed(91, GatherItems(items), 93)
    case Obj(members) => Enclosed(123, GatherParts(SortOn(Parts(members), PartKey)), 125)
  }

  function GatherItems(items: seq<Js>): Gathered {
    if items == [] then Texts([]) else GatherOne(Canonical(items[0]), GatherItems(items[1..]))
  }

  // The members that are not undefined, each with its rendered value.
  function Parts(members: seq<Entry>): seq<Part> {
    if members == [] then []
    else
      (if members[0].value.Undefined? then [] else [Part(members[0].name, Canonical(members[0].value))])
      + Parts(members[1..])
  }

  // ----- the function as it is written: a loop over the array, a sorted pass over the keys -----

  lemma {:induction false} PartsOf(members: seq<Entry>)
    ensures forall p :: p in Parts(members) ==> exists i :: 0 <= i < |members| && p.name == members[i].name
  {
    if members != [] {
      PartsOf(members[1..]);
      forall p | p in Parts(members) ensures exists i :: 0 <= i < |members| && p.name == members[i].name {
        if p in Parts(members[1..]) {
          var i :| 0 <= i < |members[1..]| && p.name == members[1..][i].name;
          assert members[i + 1].name == p.name;
        } else {
          assert members[0].name == p.name;
        }
      }
    }
  }

  lemma {:induction false} PartsCons(e: Entry, members: seq<Entry>)
    ensures Parts([e] + members)
         == if e.value.Undefined? then Parts(members) else [Part(e.name, Canonical(e.value))] + Parts(members)
  {
    assert ([e] + members)[1..] == members;
  }

  // A part that sorts before every member goes in front of all of theirs.
  lemma {:induction false} InsertInFront(p: Part, sorted: seq<Entry>)
    requires SortedOn(sorted, NameKey) && (sorted != [] ==> KeyLeq(PartKey(p), NameKey(sorted[0])))
    ensures Insert(p, Parts(sorted), PartKey) == [p] + Parts(sorted)
  {
    hide Canonical;
    if Parts(sorted) != [] {
      PartsOf(sorted);
      assert Parts(sorted)[0] in Parts(sorted);
      var i :| 0 <= i < |sorted| && Parts(sorted)[0].name == sorted[i].name;
      if i > 0 { KeyTransitive(PartKey(p), NameKey(sorted[0]), NameKey(sorted[i])); }
    }
  }

  lemma {:induction false} PartsInsert(e: Entry, sorted: seq<Entry>)
    requires SortedOn(sorted, NameKey)
    ensures Parts(Insert(e, sorted, NameKey))
         == if e.value.Undefined? then Parts(sorted)
            else Insert(Part(e.name, Canonical(e.value)), Parts(sorted), PartKey)
  {
    hide Canonical, Parts;
    var p := Part(e.name, Canonical(e.value));
    PartsCons(e, sorted);
    if sorted == [] {
      assert [e] + sorted == [e];
      InsertInFront(p, sorted);
    } else if KeyLeq(NameKey(e), NameKey(sorted[0])) {
      InsertInFront(p, sorted);
    } else {
      var head, tail := sorted[0], sorted[1..];
      assert sorted == [head] + tail;
      PartsInsert(e, tail);
      PartsCons(head, Insert(e, tail, NameKey));
      PartsCons(head, tail);
      var q := Part(head.name, Canonical(head.value));
      assert ([q] + Parts(tail))[1..] == Parts(tail);
    }
  }

  // Object.keys(record).sort().filter(...).map(...) renders the members in the order of their names.
  lemma {:induction false} PartsSorted(members: seq<Entry>)
    ensures Parts(SortOn(members, NameKey)) == SortOn(Parts(members), PartKey)
  {
    if members != [] {
      PartsSorted(members[1..]);
      SortOnSorts(members[1..], NameKey);
      PartsInsert(members[0], SortOn(members[1..], NameKey));
      PartsCons(members[0], members[1..]);
      assert members == [members[0]] + members[1..];
      hide Canonical, Parts;
      var p := Part(members[0].name, Canonical(members[0].value));
      assert ([p] + Parts(members[1..]))[1..] == Parts(members[1..]);
    }
  }

  function Prefixed(done: seq<Text>, more: Gathered): Gathered {
    if more.Failed? then more else Texts(done + more.texts)
  }

  method Canonicalize(v: Js) returns (r: Outcome)
    ensures r == Canonical(v)
    decreases v
  {
    hide GatherItems, GatherParts, Parts;
    match v
    case Null => r := Written(NULL_TEXT);
    case Bool(flag) => r := Written(if flag then TRUE_TEXT else FALSE_TEXT);
    case Num(n) => r := Written(Decimal(n));
    case Frac(f) => r := Written(FractionText(f));
    case Str(text) => r := Written(Quote(text));
    case NonFinite => r := Fails(NonFiniteNumber);
    case Hole => r := Fails(SparseArray);
    case Undefined | Unsupported => r := Fails(UnsupportedValue);
    case Arr(items) => r := CanonicalizeArray(items);
    case Obj(members) => r := CanonicalizeRecord(members);
  }

  method CanonicalizeArray(items: seq<Js>) returns (r: Outcome)
    ensures r == Enclosed(91, GatherItems(items), 93)
    decreases items
  {
    var done: seq<Text> := [];
    var index := 0;
    while index < |items|
      invariant index <= |items| && GatherItems(items) == Prefixed(done, GatherItems(items[index..]))
    {
      assert items[index..][1..] == items[index + 1..];
      if items[index].Hole? { return Fails(SparseArray); }
      var item := Canonicalize(items[index]);
      if item.Fails? { return item; }
      done := done + [item.text];
      index := index + 1;
    }
    assert items[index..] == [] && done + [] == done;
    r := Written([91] + Join(done) + [93]);
  }

  lemma {:induction false} NothingGathered()
    ensures Parts([]) == [] && GatherParts([]) == Texts([])
  {
  }

  lemma {:induction false} GatherCons(p: Part, parts: seq<Part>)
    ensures GatherParts([p] + parts) == GatherOne(MemberOutcome(p), GatherParts(parts))
  {
    assert ([p] + parts)[1..] == parts;
  }

  // Sorting keeps termination in sight: a sorted member is one of the members.
  lemma {:induction false} Descends(members: seq<Entry>, e: Entry)
    requires e in SortOn(members, NameKey)
    ensures e in members
  {
    SortOnSorts(members, NameKey);
    assert e in multiset(members);
  }

  method CanonicalizeRecord(members: seq<Entry>) returns (r: Outcome)
    ensures r == Enclosed(123, GatherParts(SortOn(Parts(members), PartKey)), 125)
    decreases members
  {
    NothingGathered();
    hide Canonical, Parts, GatherParts, MemberText, SortOn, Insert;
    var sorted := SortOn(members, NameKey);
    PartsSorted(members);
    var done: seq<Text> := [];
    var index := 0;
    while index < |sorted|
      invariant index <= |sorted| && GatherParts(Parts(sorted)) == Prefixed(done, GatherParts(Parts(sorted[index..])))
    {
      assert sorted[index..] == [sorted[index]] + sorted[index + 1..];
      PartsCons(sorted[index], sorted[index + 1..]);
      if !sorted[index].value.Undefined? {
        Descends(members, sorted[index]);
        var value := Canonicalize(sorted[index].value);
        GatherCons(Part(sorted[index].name, value), Parts(sorted[index + 1..]));
        if value.Fails? { return value; }
        done := done + [MemberText(sorted[index].name, value.text)];
      }
      index := index + 1;
    }
    assert sorted[index..] == [] && done + [] == done;
    r := Written([123] + Join(done) + [125]);
  }

  // ----- the value a canonical text stands for -----

  // Undefined members dropped, the others in name order, all the way down.
  function Normal(v: Js): Js {
    match v
    case Arr(items) => Arr(NormalItems(items))
    case Obj(members) => Obj(SortOn(NormalMembers(members), NameKey))
    case _ => v
  }

  function NormalItems(items: seq<Js>): seq<Js> {
    if items == [] then [] else [Normal(items[0])] + NormalItems(items[1..])
  }

  function NormalMembers(members: seq<Entry>): seq<Entry> {
    if members == [] then []
    else
      (if members[0].value.Undefined? then [] else [Entry(members[0].name, Normal(members[0].value))])
      + NormalMembers(members[1..])
  }

  // What canonicalJson accepts: no hole, NaN, function or top-level undefined anywhere.
  predicate Serializable(v: Js) {
    match v
    case Null | Bool(_) | Num(_) | Frac(_) | Str(_) => true
    case Undefined | Hole | Unsupported | NonFinite => false
    case Arr(items) => forall i :: 0 <= i < |items| ==> Serializable(items[i])
    case Obj(members) =>
      forall i :: 0 <= i < |members| ==> members[i].value.Undefined? || Serializable(members[i].value)
  }

  predicate NamesDistinct(members: seq<Entry>) {
    forall i, j :: 0 <= i < j < |members| ==> members[i].name != members[j].name
  }

  // A record has one member of each name.
  predicate WellKeyed(v: Js) {
    match v
    case Arr(items) => forall i :: 0 <= i < |items| ==> WellKeyed(items[i])
    case Obj(members) => NamesDistinct(members) && forall i :: 0 <= i < |members| ==> WellKeyed(members[i].value)
    case _ => true
  }

  // The text of a value whose members are already in order.
  function Printed(v: Js): Text {
    match v
    case Null => NULL_TEXT
    case Bool(flag) => if flag then TRUE_TEXT else FALSE_TEXT
    case Num(n) => Decimal(n)
    case Frac(f) => FractionText(f)
    case Str(text) => Quote(text)
    case Arr(items) => [91] + PrintedItems(items) + [93]
    case Obj(members) => [123] + PrintedMembers(members) + [125]
    case _ => []
  }

  function PrintedItems(items: seq<Js>): Text {
    if items == [] then []
    else Printed(items[0]) + (if |items| == 1 then [] else [COMMA] + PrintedItems(items[1..]))
  }

  function PrintedMembers(members: seq<Entry>): Text {
    if members == [] then []
    else MemberText(members[0].name, Printed(members[0].value))
         + (if |members| == 1 then [] else [COMMA] + PrintedMembers(members[1..]))
  }
}
