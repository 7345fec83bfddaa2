// What a canonical text says: it reads back as the value it was written from, and two
// values share a text exactly when they are the same value.
module CanonicalText {
  import opened Ordering
  import opened Json
  import opened CanonicalJson

  // ----- canonicalJson prints the normal form -----

  function PrintedParts(members: seq<Entry>): seq<Part> {
    if members == [] then []
    else [Part(members[0].name, Written(Printed(members[0].value)))] + PrintedParts(members[1..])
  }

  ghost predicate SomeFails(parts: seq<Part>) { exists i :: 0 <= i < |parts| && parts[i].outcome.Fails? }

  lemma {:induction false} GatherFails(parts: seq<Part>)
    ensures GatherParts(parts).Failed? <==> SomeFails(parts)
  {
    if parts != [] {
      GatherFails(parts[1..]);
      if SomeFails(parts[1..]) {
        var i :| 0 <= i < |parts[1..]| && parts[1..][i].outcome.Fails?;
        assert parts[i + 1].outcome.Fails?;
      }
      if SomeFails(parts) && !parts[0].outcome.Fails? {
        var i :| 0 <= i < |parts| && parts[i].outcome.Fails?;
        assert parts[1..][i - 1].outcome.Fails?;
      }
    }
  }

  lemma {:induction false} FailureSurvivesSorting(parts: seq<Part>)
    requires SomeFails(parts)
    ensures SomeFails(SortOn(parts, PartKey))
  {
    SortOnSorts(parts, PartKey);
    var i :| 0 <= i < |parts| && parts[i].outcome.Fails?;
    assert parts[i] in multiset(SortOn(parts, PartKey));
    var j :| 0 <= j < |SortOn(parts, PartKey)| && SortOn(parts, PartKey)[j] == parts[i];
  }

  lemma {:induction false} GatherPrinted(members: seq<Entry>)
    ensures var g := GatherParts(PrintedParts(members));
      g.Texts? && |g.texts| == |members| && Join(g.texts) == PrintedMembers(members)
  {
    hide Printed, MemberText;
    if members != [] {
      GatherPrinted(members[1..]);
      var first := Part(members[0].name, Written(Printed(members[0].value)));
      GatherCons(first, PrintedParts(members[1..]));
      var more := GatherParts(PrintedParts(members[1..])).texts;
      assert ([MemberOutcome(first).text] + more)[1..] == more;
    }
  }

  lemma {:induction false} InsertPrinted(e: Entry, members: seq<Entry>)
    ensures Insert(Part(e.name, Written(Printed(e.value))), PrintedParts(members), PartKey)
      == PrintedParts(Insert(e, members, NameKey))
  {
    hide Printed;
    var p := Part(e.name, Written(Printed(e.value)));
    if members == [] {
      assert [e][1..] == [];
    } else if KeyLeq(NameKey(e), NameKey(members[0])) {
      assert ([e] + members)[1..] == members;
    } else {
      InsertPrinted(e, members[1..]);
      var rest := Insert(e, members[1..], NameKey);
      assert ([members[0]] + rest)[1..] == rest;
      var head := Part(members[0].name, Written(Printed(members[0].value)));
      assert ([head] + PrintedParts(members[1..]))[1..] == PrintedParts(members[1..]);
    }
  }

  lemma {:induction false} SortPrinted(members: seq<Entry>)
    ensures SortOn(PrintedParts(members), PartKey) == PrintedParts(SortOn(members, NameKey))
  {
    hide Printed;
    if members != [] {
      SortPrinted(members[1..]);
      var head := Part(members[0].name, Written(Printed(members[0].value)));
      assert ([head] + PrintedParts(members[1..]))[1..] == PrintedParts(members[1..]);
      InsertPrinted(members[0], SortOn(members[1..], NameKey));
    }
  }

  ghost predicate ItemsSerializable(items: seq<Js>) { forall i :: 0 <= i < |items| ==> Serializable(items[i]) }

  ghost predicate MembersSerializable(members: seq<Entry>) {
    forall i :: 0 <= i < |members| ==> members[i].value.Undefined? || Serializable(members[i].value)
  }

  lemma {:induction false} ItemsSerializableCons(items: seq<Js>)
    requires items != []
    ensures ItemsSerializable(items) <==> Serializable(items[0]) && ItemsSerializable(items[1..])
  {
    hide Serializable;
    assert forall i :: 0 < i < |items| ==> items[i] == items[1..][i - 1];
  }

  lemma {:induction false} MembersSerializableCons(members: seq<Entry>)
    requires members != []
    ensures MembersSerializable(members)
       <==> (members[0].value.Undefined? || Serializable(members[0].value)) && MembersSerializable(members[1..])
  {
    hide Serializable;
    assert forall i :: 0 < i < |members| ==> members[i] == members[1..][i - 1];
  }

  // canonicalJson succeeds exactly on serializable values, and prints their normal form.
  lemma {:induction false} CanonicalPrints(v: Js)
    ensures Canonical(v).Written? <==> Serializable(v)
    ensures Serializable(v) ==> Canonical(v) == Written(Printed(Normal(v)))
    decreases v, 2
  {
    match v
    case Arr(items) => ItemsPrint(items);
    case Obj(members) => MembersPrint(members);
    case _ =>
  }

  lemma {:induction false} ItemsPrint(items: seq<Js>)
    ensures GatherItems(items).Texts? <==> ItemsSerializable(items)
    ensures ItemsSerializable(items) ==>
      |GatherItems(items).texts| == |items| == |NormalItems(items)|
      && Join(GatherItems(items).texts) == PrintedItems(NormalItems(items))
    decreases items, 1
  {
    if items != [] {
      CanonicalPrints(items[0]);
      ItemsPrint(items[1..]);
      hide Canonical, Normal, Serializable, Printed;
      ItemsSerializableCons(items);
      if ItemsSerializable(items) {
        var more, rest := GatherItems(items[1..]).texts, NormalItems(items[1..]);
        assert ([Canonical(items[0]).text] + more)[1..] == more;
        assert ([Normal(items[0])] + rest)[1..] == rest;
      }
    }
  }

  lemma {:induction false} MembersPrint(members: seq<Entry>)
    ensures Enclosed(123, GatherParts(SortOn(Parts(members), PartKey)), 125).Written? <==> MembersSerializable(members)
    ensures MembersSerializable(members) ==>
      Enclosed(123, GatherParts(SortOn(Parts(members), PartKey)), 125)
      == Written([123] + PrintedMembers(SortOn(NormalMembers(members), NameKey)) + [125])
    decreases members, 1
  {
    PartsPrint(members);
    hide Parts, NormalMembers, SortOn;
    if MembersSerializable(members) {
      SortPrinted(NormalMembers(members));
      GatherPrinted(SortOn(NormalMembers(members), NameKey));
    } else {
      FailureSurvivesSorting(Parts(members));
      GatherFails(SortOn(Parts(members), PartKey));
    }
  }

  lemma {:induction false} PartsPrint(members: seq<Entry>)
    ensures MembersSerializable(members) ==> Parts(members) == PrintedParts(NormalMembers(members))
    ensures !MembersSerializable(members) ==> SomeFails(Parts(members))
    decreases members, 0
  {
    if members != [] {
      CanonicalPrints(members[0].value);
      PartsPrint(members[1..]);
      PartsStep(members);
    }
  }

  lemma {:induction false} NormalStep(members: seq<Entry>)
    requires members != []
    ensures var e, rest := members[0], PrintedParts(NormalMembers(members[1..]));
      PrintedParts(NormalMembers(members))
      == if e.value.Undefined? then rest else [Part(e.name, Written(Printed(Normal(e.value))))] + rest
  {
    hide Normal, Printed;
    var e, tail := members[0], members[1..];
    var n := Entry(e.name, Normal(e.value));
    assert ([n] + NormalMembers(tail))[1..] == NormalMembers(tail);
    if e.value.Undefined? { assert NormalMembers(members) == NormalMembers(tail); }
  }

  lemma {:induction false} PartsStep(members: seq<Entry>)
    requires members != []
    requires Canonical(members[0].value).Written? <==> Serializable(members[0].value)
    requires Serializable(members[0].value) ==>
      Canonical(members[0].value) == Written(Printed(Normal(members[0].value)))
    requires MembersSerializable(members[1..]) ==> Parts(members[1..]) == PrintedParts(NormalMembers(members[1..]))
    requires !MembersSerializable(members[1..]) ==> SomeFails(Parts(members[1..]))
    ensures MembersSerializable(members) ==> Parts(members) == PrintedParts(NormalMembers(members))
    ensures !MembersSerializable(members) ==> SomeFails(Parts(members))
  {
    hide Canonical, Normal, Serializable, Printed, Parts, NormalMembers, PrintedParts, MembersSerializable;
    var e, tail := members[0], members[1..];
    MembersSerializableCons(members);
    assert members == [e] + tail;
    PartsCons(e, tail);
    if MembersSerializable(members) {
      NormalStep(members);
    } else if !MembersSerializable(tail) {
      var i :| 0 <= i < |Parts(tail)| && Parts(tail)[i].outcome.Fails?;
      var k := if e.value.Undefined? then i else i + 1;
      assert Parts(members)[k] == Parts(tail)[i] && Parts(members)[k].outcome.Fails?;
    } else {
      assert Parts(members)[0].outcome.Fails?;
    }
  }

  // ----- reading it back -----

  // Values that are their own normal form up to the order of members: what JSON.parse produces.
  predicate Plain(v: Js) {
    match v
    case Null | Bool(_) | Num(_) | Frac(_) | Str(_) => true
    case Undefined | Hole | Unsupported | NonFinite => false
    case Arr(items) => forall i :: 0 <= i < |items| ==> Plain(items[i])
    case Obj(members) => NamesDistinct(members) && forall i :: 0 <= i < |members| ==> Plain(members[i].value)
  }

  // No value's text starts with a space or a closing bracket.
  lemma {:induction false} PrintedHead(v: Js, rest: Text)
    requires Plain(v)
    ensures Printed(v) != [] && !IsSpace(Printed(v)[0]) && Printed(v)[0] != 93 && Printed(v)[0] != 125
  {
    if v.Num? { DecimalReads(v.number, []); }
    if v.Frac? { FractionReads(v.fraction, []); }
  }

  lemma {:induction false} WordReads(word: Text, value: Js, rest: Text)
    requires word != []
    ensures ReadWord(word + rest, word, value) == Parsed(value, rest)
  {
    assert (word + rest)[|word|..] == rest;
  }

  lemma {:induction false} ScalarReads(v: Js, rest: Text)
    requires Plain(v) && !v.Arr? && !v.Obj? && Delimited(rest)
    ensures ReadValue(Printed(v) + rest) == Parsed(v, rest)
  {
    hide ReadNumber, ReadString, Decimal, FractionText, Quote, ReadItems, ReadMembers;
    var s := Printed(v) + rest;
    match v
    case Null => WordReads(NULL_TEXT, v, rest);
    case Bool(flag) => WordReads(if flag then TRUE_TEXT else FALSE_TEXT, v, rest);
    case Num(n) => DecimalReads(n, rest);
    case Frac(f) => FractionReads(f, rest);
    case Str(text) => QuoteReads(text, rest);
  }

  lemma {:induction false} ValueReads(v: Js, rest: Text)
    requires Plain(v) && Delimited(rest)
    ensures ReadValue(Printed(v) + rest) == Parsed(v, rest)
    decreases v, 1
  {
    match v
    case Arr(items) =>
      if items == [] { EmptyReads(91, 93, rest); } else {
        ItemsRead(items, [], rest);
        PrintedHead(items[0], rest);
        OpenReads(91, PrintedItems(items), rest);
        assert [] + items == items;
      }
    case Obj(members) =>
      if members == [] { EmptyReads(123, 125, rest); } else {
        assert [] + members == members;
        MembersRead(members, [], rest);
        MembersHead(members);
        OpenReads(123, PrintedMembers(members), rest);
      }
    case _ => ScalarReads(v, rest);
  }

  lemma {:induction false} EmptyReads(opening: Unit, closing: Unit, rest: Text)
    requires (opening == 91 && closing == 93) || (opening == 123 && closing == 125)
    ensures ReadValue([opening] + [] + [closing] + rest) == Parsed(if opening == 91 then Arr([]) else Obj([]), rest)
  {
    var s := [opening] + [] + [closing] + rest;
    assert s[1..] == [closing] + rest && s[1..][1..] == rest;
  }

  // A bracket followed by something that neither closes it nor is blank.
  lemma {:induction false} OpenReads(opening: Unit, inner: Text, rest: Text)
    requires opening == 91 || opening == 123
    requires inner != [] && !IsSpace(inner[0]) && inner[0] != 93 && inner[0] != 125
    ensures opening == 91 ==> ReadValue([91] + inner + [93] + rest) == ReadItems(inner + [93] + rest, [])
    ensures opening == 123 ==> ReadValue([123] + inner + [125] + rest) == ReadMembers(inner + [125] + rest, [])
  {
    hide ReadItems, ReadMembers;
    var closing: Unit := if opening == 91 then 93 else 125;
    var s := [opening] + inner + [closing] + rest;
    assert s[1..] == inner + [closing] + rest;
  }

  // The last element, then the bracket.
  lemma {:induction false} LastItem(text: Text, v: Js, done: seq<Js>, rest: Text)
    requires ReadValue(text + ([93] + rest)) == Parsed(v, [93] + rest)
    ensures ReadItems(text + [93] + rest, done) == Parsed(Arr(done + [v]), rest)
  {
    hide ReadValue;
    assert text + [93] + rest == text + ([93] + rest);
    assert ([93] + rest)[1..] == rest;
  }

  // An element and a comma, then the others.
  lemma {:induction false} NextItem(text: Text, v: Js, done: seq<Js>, tail: Text)
    requires ReadValue(text + ([COMMA] + tail)) == Parsed(v, [COMMA] + tail)
    ensures ReadItems(text + ([COMMA] + tail), done) == ReadItems(tail, done + [v])
  {
    hide ReadValue;
    assert ([COMMA] + tail)[1..] == tail;
  }

  lemma {:induction false} ItemsRead(items: seq<Js>, done: seq<Js>, rest: Text)
    requires items != [] && forall i :: 0 <= i < |items| ==> Plain(items[i])
    ensures ReadItems(PrintedItems(items) + [93] + rest, done) == Parsed(Arr(done + items), rest)
    decreases items, 0
  {
    hide ReadValue, ReadItems, Printed;
    if |items| == 1 {
      ValueReads(items[0], [93] + rest);
      LastItem(Printed(items[0]), items[0], done, rest);
      assert items == [items[0]] && Printed(items[0]) + [] == Printed(items[0]);
    } else {
      var tail := PrintedItems(items[1..]) + [93] + rest;
      ValueReads(items[0], [COMMA] + tail);
      ItemsRead(items[1..], done + [items[0]], rest);
      NextItem(Printed(items[0]), items[0], done, tail);
      assert PrintedItems(items) + [93] + rest == Printed(items[0]) + ([COMMA] + tail);
      assert done + [items[0]] + items[1..] == done + items;
    }
  }

  lemma {:induction false} PutNew(members: seq<Entry>, name: Text, value: Js)
    requires forall i :: 0 <= i < |members| ==> members[i].name != name
    ensures Put(members, name, value) == members + [Entry(name, value)]
  {
    if members != [] { PutNew(members[1..], name, value); }
  }

  lemma {:induction false} LastMember(name: Text, text: Text, v: Js, done: seq<Entry>, rest: Text)
    requires ReadValue(text + ([125] + rest)) == Parsed(v, [125] + rest)
    ensures ReadMembers(MemberText(name, text) + [125] + rest, done) == Parsed(Obj(Put(done, name, v)), rest)
  {
    MemberReads(name, text, [125] + rest);
    hide ReadValue, Quote, Put;
    assert MemberText(name, text) + [125] + rest == MemberText(name, text) + ([125] + rest);
    assert ([125] + rest)[1..] == rest;
  }

  lemma {:induction false} NextMember(name: Text, text: Text, v: Js, done: seq<Entry>, tail: Text)
    requires ReadValue(text + ([COMMA] + tail)) == Parsed(v, [COMMA] + tail)
    ensures ReadMembers(MemberText(name, text) + ([COMMA] + tail), done) == ReadMembers(tail, Put(done, name, v))
  {
    MemberReads(name, text, [COMMA] + tail);
    hide ReadValue, Quote, Put;
    assert ([COMMA] + tail)[1..] == tail;
  }

  // The name and the colon.
  lemma {:induction false} MemberReads(name: Text, text: Text, after: Text)
    ensures var s := MemberText(name, text) + after;
      && s != [] && s[0] == QUOTE && SkipSpace(s) == s
      && ReadString(s) == Parsed(name, [COLON] + text + after)
      && SkipSpace([COLON] + text + after) == [COLON] + text + after
      && ([COLON] + text + after)[1..] == text + after
  {
    var rest := [COLON] + text + after;
    QuoteReads(name, rest);
    hide Quote;
    assert MemberText(name, text) + after == Quote(name) + rest;
  }

  lemma {:induction false} MembersHead(members: seq<Entry>)
    requires members != []
    ensures PrintedMembers(members) != [] && PrintedMembers(members)[0] == QUOTE
  {
    hide Printed, QuoteBody;
  }

  lemma {:induction false} MembersRegroup(members: seq<Entry>, rest: Text)
    requires members != []
    ensures var head := MemberText(members[0].name, Printed(members[0].value));
      PrintedMembers(members) + [125] + rest
      == if |members| == 1 then head + [125] + rest
         else head + ([COMMA] + (PrintedMembers(members[1..]) + [125] + rest))
  {
    hide Printed, MemberText;
    var head := MemberText(members[0].name, Printed(members[0].value));
    if |members| == 1 { assert PrintedMembers(members) == head; }
  }

  lemma {:induction false} NewName(done: seq<Entry>, members: seq<Entry>)
    requires members != [] && NamesDistinct(done + members)
    ensures forall i :: 0 <= i < |done| ==> done[i].name != members[0].name
  {
    forall i | 0 <= i < |done| ensures done[i].name != members[0].name {
      assert (done + members)[i] == done[i] && (done + members)[|done|] == members[0];
    }
  }

  // A member is read into the members before it.
  lemma {:induction false} MemberPut(members: seq<Entry>, done: seq<Entry>)
    requires members != [] && NamesDistinct(done + members)
    ensures Put(done, members[0].name, members[0].value) == done + [members[0]]
    ensures done + [members[0]] + members[1..] == done + members
  {
    NewName(done, members);
    hide NamesDistinct;
    PutNew(done, members[0].name, members[0].value);
  }

  lemma {:induction false} MembersRead(members: seq<Entry>, done: seq<Entry>, rest: Text)
    requires members != [] && NamesDistinct(done + members)
    requires forall i :: 0 <= i < |members| ==> Plain(members[i].value)
    ensures ReadMembers(PrintedMembers(members) + [125] + rest, done) == Parsed(Obj(done + members), rest)
    decreases members, 0
  {
    hide ReadValue, ReadMembers, Printed, MemberText, NamesDistinct, Put, PrintedMembers, Plain;
    var e, tail := members[0], members[1..];
    MemberPut(members, done);
    MembersRegroup(members, rest);
    if |members| == 1 {
      ValueReads(e.value, [125] + rest);
      LastMember(e.name, Printed(e.value), e.value, done, rest);
      assert members == [e];
    } else {
      var more := PrintedMembers(tail) + [125] + rest;
      ValueReads(e.value, [COMMA] + more);
      MembersRead(tail, done + [e], rest);
      NextMember(e.name, Printed(e.value), e.value, done, more);
    }
  }
}
