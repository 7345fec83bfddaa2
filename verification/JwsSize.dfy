// How long a compact JWS is: exactly when a payload's canonical text is short enough for the
// verifier to read what was signed, and a bound that needs only the lengths of its strings.
module JwsSize {
  import opened Ordering
  import opened Json
  import opened CanonicalJson
  import opened CanonicalText
  import opened JwsCodec
  import Utf8
  import Base64Url

  function Bytes(text: Text): nat { |Utf8.Encode(text)| }

  // {"alg":"EdDSA","kid":"","typ":"parimit-authz-envelope+jws"}
  const HEADER_BYTES := 59

  // Two dots and the letters of a 64-byte signature.
  const SIGNATURE_LENGTH := 88

  // The length of what signing a payload of that many bytes under this key id gives.
  function SignedLength(kid: Text, payloadBytes: nat): nat {
    Base64Url.EncodedLength(HEADER_BYTES + Bytes(QuoteBody(kid)))
    + Base64Url.EncodedLength(payloadBytes) + SIGNATURE_LENGTH
  }

  // ----- texts JSON and UTF-8 leave as they are -----

  // Visible ASCII but for the quote and the backslash; key ids are made of it.
  predicate Visible(text: Text) {
    forall i :: 0 <= i < |text| ==> 32 <= text[i] < 127 && text[i] != QUOTE && text[i] != BACKSLASH
  }

  lemma {:induction false} AsciiBytes(text: Text)
    requires IsAscii(text)
    ensures Bytes(text) == |text|
  {
    if text != [] { AsciiBytes(text[1..]); }
  }

  lemma {:induction false} VisibleStays(text: Text)
    requires Visible(text)
    ensures QuoteBody(text) == text && Bytes(text) == |text|
  {
    AsciiBytes(text);
    hide Utf8.Encode;
    if text != [] {
      VisibleStays(text[1..]);
      assert EscapeUnit(text[0]) == [text[0]];
    }
  }

  lemma {:induction false} QuotedBytes(text: Text)
    ensures Bytes(Quote(text)) == Bytes(QuoteBody(text)) + 2
  {
    hide QuoteBody, Utf8.Encode;
    Utf8.EncodeConcat([QUOTE] + QuoteBody(text), [QUOTE]);
    QuoteBodyWellFormed(text);
    assert QuoteBody(text) == [] || !IsLow(QuoteBody(text)[0]);
    Utf8.EncodeConcat([QUOTE], QuoteBody(text));
    AsciiBytes([QUOTE]);
  }

  // ----- the exact length -----

  lemma {:induction false} MemberBytes(name: Text, text: Text)
    requires Visible(name) && (text == [] || !IsLow(text[0]))
    ensures Bytes(MemberText(name, text)) == |name| + 3 + Bytes(text)
  {
    hide Utf8.Encode, Quote;
    QuotedBytes(name);
    VisibleStays(name);
    AsciiBytes([COLON]);
    Utf8.EncodeConcat(Quote(name), [COLON]);
    Utf8.EncodeConcat(Quote(name) + [COLON], text);
  }

  lemma {:induction false} MembersBytes(first: Entry, more: seq<Entry>)
    requires more != []
    ensures Bytes(PrintedMembers([first] + more))
         == Bytes(MemberText(first.name, Printed(first.value))) + 1 + Bytes(PrintedMembers(more))
  {
    hide Utf8.Encode, Printed, MemberText, PrintedMembers;
    var head, tail := MemberText(first.name, Printed(first.value)), PrintedMembers(more);
    MembersHead(more);
    AsciiBytes([COMMA]);
    Utf8.EncodeConcat([COMMA], tail);
    Utf8.EncodeConcat(head, [COMMA] + tail);
    MembersCons(first, more);
  }

  lemma {:induction false} MembersCons(first: Entry, more: seq<Entry>)
    requires more != []
    ensures PrintedMembers([first] + more)
      == MemberText(first.name, Printed(first.value)) + ([COMMA] + PrintedMembers(more))
  {
    hide Printed, MemberText;
    assert ([first] + more)[1..] == more;
  }

  lemma {:induction false} LastMemberBytes(only: Entry)
    ensures Bytes(PrintedMembers([only])) == Bytes(MemberText(only.name, Printed(only.value)))
  {
    hide Utf8.Encode, Printed, MemberText;
    var head := MemberText(only.name, Printed(only.value));
    assert head + [] == head;
  }

  lemma {:induction false} StringMemberBytes(name: Text, text: Text)
    requires Visible(name)
    ensures Bytes(MemberText(name, Printed(Str(text)))) == |name| + 5 + Bytes(QuoteBody(text))
  {
    hide Bytes, Quote, QuoteBody, MemberText;
    QuotedBytes(text);
    QuoteFirst(text);
    MemberBytes(name, Quote(text));
  }

  lemma {:induction false} HeaderVisible()
    ensures Visible(ALG) && Visible(KID) && Visible(TYP) && Visible(EDDSA) && Visible(ENVELOPE_TYPE)
    ensures |ALG| == |KID| == |TYP| == 3 && |EDDSA| == 5 && |ENVELOPE_TYPE| == 26
  {
  }

  lemma {:induction false} HeaderBytes(kid: Text)
    ensures Bytes(Printed(Header(kid))) == HEADER_BYTES + Bytes(QuoteBody(kid))
  {
    hide Bytes, Printed, MemberText, QuoteBody, Visible;
    HeaderVisible();
    var alg, key, typ := Entry(ALG, Str(EDDSA)), Entry(KID, Str(kid)), Entry(TYP, Str(ENVELOPE_TYPE));
    VisibleStays(EDDSA);
    VisibleStays(ENVELOPE_TYPE);
    StringMemberBytes(ALG, EDDSA);
    StringMemberBytes(KID, kid);
    StringMemberBytes(TYP, ENVELOPE_TYPE);
    LastMemberBytes(typ);
    MembersBytes(key, [typ]);
    MembersBytes(alg, [key, typ]);
    assert [alg] + [key, typ] == [alg, key, typ] && [key] + [typ] == [key, typ];
    BracedBytes([alg, key, typ]);
  }

  lemma {:induction false} QuoteFirst(text: Text)
    ensures Quote(text)[0] == QUOTE
  {
  }

  lemma {:induction false} BracedBytes(members: seq<Entry>)
    requires members != []
    ensures Bytes(Printed(Obj(members))) == Bytes(PrintedMembers(members)) + 2
  {
    hide Utf8.Encode, PrintedMembers;
    MembersHead(members);
    AsciiBytes([123]);
    AsciiBytes([125]);
    Utf8.EncodeConcat([123], PrintedMembers(members));
    Utf8.EncodeConcat([123] + PrintedMembers(members), [125]);
  }

  // The length of a signed string, from the lengths of what goes into it.
  lemma {:induction false} SignLength(ed: Scheme, payload: Js, signer: Signer)
    requires Sound(ed) && payload.Obj? && Serializable(payload) && WellKeyed(payload)
    ensures Canonical(payload).Written?
    ensures |Sign(ed, payload, signer)| == SignedLength(signer.kid, Bytes(Canonical(payload).text))
  {
    hide Canonical, Serializable, WellKeyed, Normal, Header, Printed, Utf8.Encode, Base64Url.Encode;
    var header := Header(signer.kid);
    var signature := ed.sign(signer.key, SigningInput(signer.kid, payload));
    CanonicalPrints(payload);
    HeaderNormal(signer.kid);
    CanonicalPrints(header);
    HeaderBytes(signer.kid);
    Base64Url.EncodeLength(Utf8.Encode(Canonical(payload).text));
    Base64Url.EncodeLength(Utf8.Encode(Canonical(header).text));
    Base64Url.EncodeLength(signature);
  }

  // What is signed verifies exactly when its canonical text is short enough: a condition on
  // the payload and the key id, known before anything is signed.
  lemma {:induction false} SignedFits(ed: Scheme, payload: Js, signer: Signer)
    requires Sound(ed) && signer.kid != []
    requires payload.Obj? && Serializable(payload) && WellKeyed(payload)
    ensures Canonical(payload).Written?
    ensures var fits := SignedLength(signer.kid, Bytes(Canonical(payload).text)) <= MAX_BYTES;
      var signature := ed.sign(signer.key, SigningInput(signer.kid, payload));
      Verify(ed, Sign(ed, payload, signer), Jwk(signer.kid, signer.key))
      == if fits then Accepted(Envelope(signer.kid, Normal(payload), signature)) else Rejected
  {
    hide Canonical, Serializable, WellKeyed, Normal, Sign, Verify, SignedLength, Bytes;
    SignLength(ed, payload, signer);
    SignedVerifies(ed, payload, signer);
  }

  // ----- a payload that signs and does not verify -----

  function Letters(n: nat): Text { seq(n, _ => 97) }

  // {"a":"aa...a"}
  function LongPayload(n: nat): Js { Obj([Entry(Letters(1), Str(Letters(n)))]) }

  lemma {:induction false} LongPayloadBytes(n: nat)
    ensures var payload := LongPayload(n);
      && payload.Obj? && Serializable(payload) && WellKeyed(payload)
      && Canonical(payload).Written? && Bytes(Canonical(payload).text) == n + 8
  {
    hide Bytes, Canonical, Printed, MemberText, QuoteBody;
    var e := Entry(Letters(1), Str(Letters(n)));
    var payload := LongPayload(n);
    assert Serializable(e.value) && WellKeyed(e.value);
    CanonicalPrints(payload);
    SingleNormal(e);
    VisibleStays(Letters(n));
    StringMemberBytes(Letters(1), Letters(n));
    LastMemberBytes(e);
    BracedBytes([e]);
  }

  lemma {:induction false} SingleNormal(e: Entry)
    requires e.value.Str?
    ensures Normal(Obj([e])) == Obj([e])
  {
    assert [e][1..] == [] && NormalMembers([]) == [] && NormalMembers([e]) == [e];
    SortedIsFixed([e], NameKey);
  }

  // One string member of 70,000 letters: under every key it signs, and the signed string is refused.
  lemma {:induction false} LongSignedRejected(ed: Scheme, signer: Signer)
    requires Sound(ed) && signer.kid != []
    ensures var payload := LongPayload(70_000);
      && payload.Obj? && Serializable(payload) && WellKeyed(payload)
      && |Sign(ed, payload, signer)| > MAX_BYTES
      && Verify(ed, Sign(ed, payload, signer), Jwk(signer.kid, signer.key)) == Rejected
  {
    hide LongPayload, Serializable, WellKeyed, Canonical, Sign, Verify, Bytes;
    LongPayloadBytes(70_000);
    SignLength(ed, LongPayload(70_000), signer);
    SignedVerifies(ed, LongPayload(70_000), signer);
  }

  // ----- a bound from the lengths of the strings alone -----

  // Six bytes for each unit of a string cover any escape; members carry their quotes, colon and comma.
  function Weight(v: Js): nat {
    match v
    case Null => 4
    case Bool(_) => 5
    case Num(n) => |Decimal(n)|
    case Frac(f) => |FractionText(f)|
    case Str(text) => 6 * |text| + 2
    case Arr(items) => ItemsWeight(items) + 2
    case Obj(members) => MembersWeight(members) + 2
    case _ => 0
  }

  function ItemsWeight(items: seq<Js>): nat {
    if items == [] then 0 else Weight(items[0]) + 1 + ItemsWeight(items[1..])
  }

  function MembersWeight(members: seq<Entry>): nat {
    if members == [] then 0 else 6 * |members[0].name| + 4 + Weight(members[0].value) + MembersWeight(members[1..])
  }

  lemma {:induction false} EscapeBytes(u: Unit)
    ensures Bytes(EscapeUnit(u)) <= 6
  {
    if EscapeUnit(u) == [u] {
      Utf8.EncodeNothing();
      Utf8.EncodeOne(u, []);
      assert [u] + [] == [u];
    } else {
      AsciiBytes(EscapeUnit(u));
    }
  }

  lemma {:induction false} BodyBytes(text: Text)
    ensures Bytes(QuoteBody(text)) <= 6 * |text|
    decreases |text|
  {
    hide Utf8.Encode, EscapeUnit;
    if text == [] {
      AsciiBytes([]);
    } else if |text| >= 2 && IsHigh(text[0]) && IsLow(text[1]) {
      BodyBytes(text[2..]);
      Utf8.EncodeNothing();
      Utf8.EncodeTwo(text[0], text[1], []);
      assert text[..2] == [text[0], text[1]] + [];
      Utf8.EncodeJoins(text[..2], QuoteBody(text[2..]));
    } else {
      BodyBytes(text[1..]);
      EscapeBytes(text[0]);
      Utf8.EncodeJoins(EscapeUnit(text[0]), QuoteBody(text[1..]));
    }
  }

  lemma {:induction false} JoinedBytes(a: Text, b: Text, c: Text)
    ensures Bytes(a + b + c) <= Bytes(a) + Bytes(b) + Bytes(c)
  {
    hide Utf8.Encode;
    Utf8.EncodeJoins(a + b, c);
    Utf8.EncodeJoins(a, b);
  }

  lemma {:induction false} QuoteWeighs(text: Text)
    ensures Bytes(Quote(text)) <= 6 * |text| + 2
  {
    hide Bytes, QuoteBody;
    QuotedBytes(text);
    BodyBytes(text);
  }

  lemma {:induction false} NumberBytes(v: Js)
    requires v.Num? || v.Frac?
    ensures Bytes(Printed(v)) == Weight(v)
  {
    hide Bytes, Decimal, FractionText;
    if v.Num? { DecimalAscii(v.number); } else { FractionAscii(v.fraction); }
    AsciiBytes(Printed(v));
  }

  lemma {:induction false} PrintedWeighs(v: Js)
    ensures Bytes(Printed(v)) <= Weight(v)
    decreases v, 1
  {
    hide Bytes;
    AsciiBytes([]);
    match v
    case Null => AsciiBytes(NULL_TEXT);
    case Bool(flag) => AsciiBytes(Printed(v));
    case Num(_) => NumberBytes(v);
    case Frac(_) => NumberBytes(v);
    case Str(text) => QuoteWeighs(text);
    case Arr(items) =>
      ItemsWeigh(items);
      AsciiBytes([91]);
      AsciiBytes([93]);
      JoinedBytes([91], PrintedItems(items), [93]);
    case Obj(members) =>
      MembersWeigh(members);
      AsciiBytes([123]);
      AsciiBytes([125]);
      JoinedBytes([123], PrintedMembers(members), [125]);
    case _ =>
  }

  lemma {:induction false} ItemsWeigh(items: seq<Js>)
    ensures Bytes(PrintedItems(items)) <= ItemsWeight(items)
    decreases items, 0
  {
    hide Bytes, Printed, Weight;
    AsciiBytes([]);
    if items != [] {
      PrintedWeighs(items[0]);
      ItemsWeigh(items[1..]);
      AsciiBytes([COMMA]);
      JoinedBytes(Printed(items[0]), [COMMA], PrintedItems(items[1..]));
      JoinedBytes(Printed(items[0]), [], []);
      assert Printed(items[0]) + [COMMA] + PrintedItems(items[1..])
        == Printed(items[0]) + ([COMMA] + PrintedItems(items[1..]));
      assert Printed(items[0]) + [] + [] == Printed(items[0]) + [];
    }
  }

  lemma {:induction false} MembersWeigh(members: seq<Entry>)
    ensures Bytes(PrintedMembers(members)) <= MembersWeight(members)
    decreases members, 0
  {
    hide Bytes, Printed, Weight, MemberText;
    AsciiBytes([]);
    if members != [] {
      var head := MemberText(members[0].name, Printed(members[0].value));
      PrintedWeighs(members[0].value);
      MembersWeigh(members[1..]);
      MemberWeighs(members[0].name, Printed(members[0].value));
      AsciiBytes([COMMA]);
      JoinedBytes(head, [COMMA], PrintedMembers(members[1..]));
      JoinedBytes(head, [], []);
      assert head + [COMMA] + PrintedMembers(members[1..]) == head + ([COMMA] + PrintedMembers(members[1..]));
      assert head + [] + [] == head + [];
    }
  }

  lemma {:induction false} MemberWeighs(name: Text, text: Text)
    ensures Bytes(MemberText(name, text)) <= 6 * |name| + 3 + Bytes(text)
  {
    hide Bytes, Quote;
    QuoteWeighs(name);
    AsciiBytes([COLON]);
    JoinedBytes(Quote(name), [COLON], text);
  }

  // Normalizing drops undefined members and sorts the others, so it never adds weight.
  lemma {:induction false} InsertWeighs(e: Entry, sorted: seq<Entry>)
    ensures MembersWeight(Insert(e, sorted, NameKey)) == 6 * |e.name| + 4 + Weight(e.value) + MembersWeight(sorted)
  {
    hide Weight;
    if sorted == [] {
      assert [e][1..] == [];
    } else if KeyLeq(NameKey(e), NameKey(sorted[0])) {
      assert ([e] + sorted)[1..] == sorted;
    } else {
      InsertWeighs(e, sorted[1..]);
      var rest := Insert(e, sorted[1..], NameKey);
      assert ([sorted[0]] + rest)[1..] == rest;
    }
  }

  lemma {:induction false} SortWeighs(members: seq<Entry>)
    ensures MembersWeight(SortOn(members, NameKey)) == MembersWeight(members)
  {
    hide Weight;
    if members != [] {
      SortWeighs(members[1..]);
      InsertWeighs(members[0], SortOn(members[1..], NameKey));
    }
  }

  lemma {:induction false} NormalWeighs(v: Js)
    ensures Weight(Normal(v)) <= Weight(v)
    decreases v, 1
  {
    match v
    case Arr(items) => NormalItemsWeigh(items);
    case Obj(members) =>
      NormalMembersWeigh(members);
      SortWeighs(NormalMembers(members));
    case _ =>
  }

  lemma {:induction false} NormalItemsWeigh(items: seq<Js>)
    ensures ItemsWeight(NormalItems(items)) <= ItemsWeight(items)
    decreases items, 0
  {
    hide Weight, Normal;
    if items != [] {
      NormalWeighs(items[0]);
      NormalItemsWeigh(items[1..]);
      assert ([Normal(items[0])] + NormalItems(items[1..]))[1..] == NormalItems(items[1..]);
    }
  }

  lemma {:induction false} NormalMembersWeigh(members: seq<Entry>)
    ensures MembersWeight(NormalMembers(members)) <= MembersWeight(members)
    decreases members, 0
  {
    hide Weight, Normal;
    if members != [] {
      var n := Entry(members[0].name, Normal(members[0].value));
      NormalWeighs(members[0].value);
      NormalMembersWeigh(members[1..]);
      assert ([n] + NormalMembers(members[1..]))[1..] == NormalMembers(members[1..]);
      assert [] + NormalMembers(members[1..]) == NormalMembers(members[1..]);
    }
  }

  // Signed, it is within the limit and verifies under the matching key to exactly what was signed.
  predicate Survives(ed: Scheme, payload: Js, signer: Signer) {
    && |Sign(ed, payload, signer)| <= MAX_BYTES
    && Verify(ed, Sign(ed, payload, signer), Jwk(signer.kid, signer.key))
       == Accepted(Envelope(signer.kid, Normal(payload), ed.sign(signer.key, SigningInput(signer.kid, payload))))
  }

  // A payload this light survives, whatever its strings hold.
  lemma {:induction false} LightEnough(ed: Scheme, payload: Js, signer: Signer)
    requires Sound(ed) && 1 <= |signer.kid| <= 128
    requires payload.Obj? && Serializable(payload) && WellKeyed(payload) && Weight(payload) <= 48_000
    ensures Survives(ed, payload, signer)
  {
    hide Canonical, Serializable, WellKeyed, Normal, Sign, Verify, Bytes, Printed, Weight;
    CanonicalPrints(payload);
    PrintedWeighs(Normal(payload));
    NormalWeighs(payload);
    BodyBytes(signer.kid);
    SignLength(ed, payload, signer);
    SignedVerifies(ed, payload, signer);
  }
}
