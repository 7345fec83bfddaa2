// The compact JWS of an evidence envelope (section 7.1 of RFC 7515 with EdDSA): signing,
// parsing and verifying are exact inverses, and a signed triple has one accepted spelling.
// Ed25519 itself is a parameter: any pair of functions where verifying undoes signing.
module JwsCodec {
  import opened Ordering
  import opened Json
  import opened CanonicalJson
  import opened CanonicalText
  import opened CanonicalMeaning
  import Utf8
  import Base64Url

  type Bytes = Utf8.Bytes

  const ALG: Text := [97, 108, 103]
  const KID: Text := [107, 105, 100]
  const TYP: Text := [116, 121, 112]
  const EDDSA: Text := [69, 100, 68, 83, 65]
  // "parimit-authz-envelope+jws"
  const ENVELOPE_TYPE: Text :=
    [112, 97, 114, 105, 109, 105, 116, 45, 97, 117, 116, 104, 122, 45, 101, 110, 118, 101, 108, 111, 112, 101, 43, 106,
     119, 115]
  const DOT: Unit := 46
  const MAX_BYTES := 65_536

  datatype Signer = Signer(kid: Text, key: int)
  datatype Jwk = Jwk(kid: Text, key: int)

  datatype Scheme = Scheme(sign: (int, Text) -> Bytes, verify: (int, Text, Bytes) -> bool)

  ghost predicate Sound(ed: Scheme) {
    forall key, input :: |ed.sign(key, input)| == 64 && ed.verify(key, input, ed.sign(key, input))
  }

  datatype Envelope = Envelope(kid: Text, payload: Js, signature: Bytes)
  datatype Result = Accepted(envelope: Envelope) | Rejected

  // ----- signing -----

  function Header(kid: Text): Js {
    Obj([Entry(ALG, Str(EDDSA)), Entry(KID, Str(kid)), Entry(TYP, Str(ENVELOPE_TYPE))])
  }

  // base64url of the UTF-8 of the canonical JSON; "" where canonicalJson throws.
  function Segment(v: Js): Text {
    var text := Canonical(v);
    if text.Written? then Base64Url.Encode(Utf8.Encode(text.text)) else []
  }

  function Assemble(kid: Text, payload: Js, signature: Bytes): Text {
    Segment(Header(kid)) + [DOT] + Segment(payload) + [DOT] + Base64Url.Encode(signature)
  }

  function SigningInput(kid: Text, payload: Js): Text { Segment(Header(kid)) + [DOT] + Segment(payload) }

  // signAuthorizationEnvelope
  function Sign(ed: Scheme, payload: Js, signer: Signer): Text {
    Assemble(signer.kid, payload, ed.sign(signer.key, SigningInput(signer.kid, payload)))
  }

  // ----- parsing -----

  // compactJws.split(".")
  function Split(s: Text): (parts: seq<Text>)
    ensures |parts| >= 1
  {
    if s == [] then [[]]
    else
      var more := Split(s[1..]);
      if s[0] == DOT then [[]] + more else [[s[0]] + more[0]] + more[1..]
  }

  // The JSON object the bytes spell, or Undefined.
  function ParseObject(segment: Text): Js {
    var bytes := Base64Url.Decode(segment);
    if bytes.NotCanonical? then Undefined
    else
      var text := Utf8.Decode(bytes.bytes);
      if text.Refused? then Undefined
      else
        var value := Parse(text.text);
        if value.Parsed? && value.value.Obj? then value.value else Undefined
  }

  predicate HeaderOk(header: Js) {
    && header.Obj?
    && Get(header.members, ALG) == Str(EDDSA)
    && Get(header.members, TYP) == Str(ENVELOPE_TYPE)
    && Get(header.members, KID).Str? && Get(header.members, KID).text != []
    && (forall i :: 0 <= i < |header.members| ==> header.members[i].name in {ALG, KID, TYP})
  }

  // parseAuthorizationEnvelope
  function ParseEnvelope(s: Text): Result {
    if s == [] || |s| > MAX_BYTES then Rejected
    else
      var parts := Split(s);
      if |parts| != 3 then Rejected
      else
        var header, payload, signature := ParseObject(parts[0]), ParseObject(parts[1]), Base64Url.Decode(parts[2]);
        if header.Undefined? || payload.Undefined? || signature.NotCanonical? then Rejected
        else if !HeaderOk(header) || Segment(header) != parts[0] then Rejected
        else Accepted(Envelope(Get(header.members, KID).text, payload, signature.bytes))
  }

  // verifyAuthorizationEnvelopeSignature
  function Verify(ed: Scheme, s: Text, jwk: Jwk): Result {
    var parsed := ParseEnvelope(s);
    if parsed.Rejected? then Rejected
    else
      var e := parsed.envelope;
      var parts := Split(s);
      if jwk.kid != e.kid || |e.signature| != 64 || |parts| != 3
         || !ed.verify(jwk.key, parts[0] + [DOT] + parts[1], e.signature)
         || Segment(e.payload) != parts[1]
      then Rejected else parsed
  }

  // ----- splitting -----

  predicate NoDot(s: Text) { forall i :: 0 <= i < |s| ==> s[i] != DOT }

  lemma {:induction false} SplitFirst(a: Text, rest: Text)
    requires NoDot(a)
    ensures Split(a + [DOT] + rest) == [a] + Split(rest)
  {
    var s := a + [DOT] + rest;
    if a == [] {
      assert s == [DOT] + rest && s[1..] == rest;
    } else {
      assert s[1..] == a[1..] + [DOT] + rest;
      SplitFirst(a[1..], rest);
      assert [a[0]] + a[1..] == a;
    }
  }

  lemma {:induction false} SplitLast(a: Text)
    requires NoDot(a)
    ensures Split(a) == [a]
  {
    if a != [] {
      SplitLast(a[1..]);
      assert [a[0]] + a[1..] == a;
    }
  }

  lemma {:induction false} SplitThree(a: Text, b: Text, c: Text)
    requires NoDot(a) && NoDot(b) && NoDot(c)
    ensures Split(a + [DOT] + b + [DOT] + c) == [a, b, c]
  {
    SplitLast(c);
    SplitFirst(b, c);
    SplitFirst(a, b + [DOT] + c);
    assert a + [DOT] + b + [DOT] + c == a + [DOT] + (b + [DOT] + c);
  }

  function JoinDots(parts: seq<Text>): Text
    requires |parts| >= 1
  {
    if |parts| == 1 then parts[0] else parts[0] + [DOT] + JoinDots(parts[1..])
  }

  lemma {:induction false} JoinDotsCons(first: Text, more: seq<Text>)
    requires more != []
    ensures JoinDots([first] + more) == first + [DOT] + JoinDots(more)
  {
    assert ([first] + more)[1..] == more;
  }

  lemma {:induction false} JoinDotsUnit(u: Unit, first: Text, more: seq<Text>)
    ensures JoinDots([[u] + first] + more) == [u] + JoinDots([first] + more)
  {
    if more == [] {
      assert [[u] + first] + more == [[u] + first] && [first] + more == [first];
    } else {
      JoinDotsCons([u] + first, more);
      JoinDotsCons(first, more);
    }
  }

  lemma {:induction false} SplitJoins(s: Text)
    ensures JoinDots(Split(s)) == s
  {
    if s != [] {
      SplitJoins(s[1..]);
      var more := Split(s[1..]);
      JoinDotsCons([], more);
      JoinDotsUnit(s[0], more[0], more[1..]);
      hide JoinDots;
      assert s == [s[0]] + s[1..] && more == [more[0]] + more[1..];
      assert [] + [DOT] + s[1..] == [DOT] + s[1..];
    }
  }

  lemma {:induction false} ThreeParts(s: Text)
    requires |Split(s)| == 3
    ensures s == Split(s)[0] + [DOT] + Split(s)[1] + [DOT] + Split(s)[2]
  {
    SplitJoins(s);
    var p := Split(s);
    assert JoinDots(p[1..][1..]) == p[2];
    assert JoinDots(p[1..]) == p[1] + [DOT] + p[2];
  }

  // ----- one spelling -----

  // A header that passes the checks is the canonical one for its key id.
  lemma {:induction false} HeaderIs(header: Js)
    requires HeaderOk(header) && WellKeyed(header) && Serializable(header)
    ensures Canonical(header) == Canonical(Header(Get(header.members, KID).text))
  {
    var h := Header(Get(header.members, KID).text);
    forall e: Entry | !e.value.Undefined? ensures e in header.members <==> e in h.members {
      if e in header.members { GetFinds(header.members, e); }
      GetIn(header.members, ALG);
      GetIn(header.members, KID);
      GetIn(header.members, TYP);
    }
    OrderDoesNotMatter(header.members, h.members);
  }

  lemma {:induction false} GetFinds(members: seq<Entry>, e: Entry)
    requires NamesDistinct(members) && e in members
    ensures Get(members, e.name) == e.value
  {
    if members[0] != e { GetFinds(members[1..], e); }
  }

  lemma {:induction false} GetIn(members: seq<Entry>, name: Text)
    requires !Get(members, name).Undefined?
    ensures Entry(name, Get(members, name)) in members
  {
    if members[0].name != name { GetIn(members[1..], name); }
  }

  lemma {:induction false} ObjectsArePlain(segment: Text)
    ensures ParseObject(segment).Obj? ==> Serializable(ParseObject(segment)) && WellKeyed(ParseObject(segment))
  {
    if ParseObject(segment).Obj? {
      var text := Utf8.Decode(Base64Url.Decode(segment).bytes).text;
      ReadPlain(text);
      PlainSerializes(ParseObject(segment));
    }
  }

  // An accepted string is the encoding of what it was parsed into: header, payload and signature.
  lemma {:induction false} OneSpelling(ed: Scheme, s: Text, jwk: Jwk)
    requires Verify(ed, s, jwk).Accepted?
    ensures var e := Verify(ed, s, jwk).envelope;
      && s == Assemble(e.kid, e.payload, e.signature)
      && e.kid == jwk.kid && e.kid != [] && |e.signature| == 64 && |s| <= MAX_BYTES
      && ed.verify(jwk.key, SigningInput(e.kid, e.payload), e.signature)
  {
    var e := Verify(ed, s, jwk).envelope;
    var parts := Split(s);
    var header := ParseObject(parts[0]);
    ObjectsArePlain(parts[0]);
    ThreeParts(s);
    HeaderIs(header);
    Base64Url.DecodeIsExact(parts[2], e.signature);
    hide Split, Canonical;
    assert parts[0] == Segment(Header(e.kid));
  }

  // So two accepted strings that say the same and carry the same signature are the same string.
  lemma {:induction false} SameContentSameString(ed: Scheme, s: Text, t: Text, jwk: Jwk)
    requires Verify(ed, s, jwk).Accepted? && Verify(ed, t, jwk).Accepted?
    requires Same(Verify(ed, s, jwk).envelope.payload, Verify(ed, t, jwk).envelope.payload)
    requires Verify(ed, s, jwk).envelope.signature == Verify(ed, t, jwk).envelope.signature
    ensures s == t
  {
    OneSpelling(ed, s, jwk);
    OneSpelling(ed, t, jwk);
    ObjectsArePlain(Split(s)[1]);
    ObjectsArePlain(Split(t)[1]);
    hide Same, Canonical, Split;
    SameTextSameValue(Verify(ed, s, jwk).envelope.payload, Verify(ed, t, jwk).envelope.payload);
  }

  // ----- a canonical text survives UTF-8 -----

  lemma {:induction false} WellFormedConcat(a: Text, b: Text)
    requires Utf8.WellFormed(a) && Utf8.WellFormed(b)
    ensures Utf8.WellFormed(a + b)
    decreases |a|
  {
    if a == [] {
      assert a + b == b;
    } else if IsHigh(a[0]) {
      WellFormedConcat(a[2..], b);
      assert (a + b)[2..] == a[2..] + b;
    } else {
      WellFormedConcat(a[1..], b);
      assert (a + b)[1..] == a[1..] + b;
    }
  }

  lemma {:induction false} AsciiWellFormed(a: Text)
    requires IsAscii(a)
    ensures Utf8.WellFormed(a)
  {
    if a != [] { AsciiWellFormed(a[1..]); }
  }

  lemma {:induction false} EscapeWellFormed(u: Unit)
    ensures Utf8.WellFormed(EscapeUnit(u))
  {
    if EscapeUnit(u) == [u] {
      assert [u][1..] == [];
    } else {
      AsciiWellFormed(EscapeUnit(u));
    }
  }

  lemma {:induction false} QuoteBodyWellFormed(text: Text)
    ensures Utf8.WellFormed(QuoteBody(text))
    decreases |text|
  {
    if text == [] {
    } else if |text| >= 2 && IsHigh(text[0]) && IsLow(text[1]) {
      QuoteBodyWellFormed(text[2..]);
      assert text[..2][2..] == [];
      WellFormedConcat(text[..2], QuoteBody(text[2..]));
    } else {
      QuoteBodyWellFormed(text[1..]);
      EscapeWellFormed(text[0]);
      WellFormedConcat(EscapeUnit(text[0]), QuoteBody(text[1..]));
    }
  }

  lemma {:induction false} QuoteWellFormed(text: Text)
    ensures Utf8.WellFormed(Quote(text))
  {
    QuoteBodyWellFormed(text);
    AsciiWellFormed([QUOTE]);
    hide Utf8.WellFormed;
    WellFormedConcat([QUOTE], QuoteBody(text));
    WellFormedConcat([QUOTE] + QuoteBody(text), [QUOTE]);
  }

  lemma {:induction false} DecimalWellFormed(n: int)
    ensures Utf8.WellFormed(Decimal(n))
  {
    DecimalAscii(n);
    AsciiWellFormed(Decimal(n));
  }

  lemma {:induction false} FractionWellFormed(f: Fraction)
    ensures Utf8.WellFormed(FractionText(f))
  {
    FractionAscii(f);
    AsciiWellFormed(FractionText(f));
  }

  // A canonical text never holds a lone surrogate.
  lemma {:induction false} PrintedWellFormed(v: Js)
    ensures Utf8.WellFormed(Printed(v))
    decreases v, 1
  {
    match v
    case Null => AsciiWellFormed(NULL_TEXT);
    case Bool(flag) => AsciiWellFormed(Printed(v));
    case Num(n) => DecimalWellFormed(n);
    case Frac(f) => FractionWellFormed(f);
    case Str(text) => QuoteWellFormed(text);
    case Arr(items) =>
      ItemsWellFormed(items);
      Bracketed(91, PrintedItems(items), 93);
    case Obj(members) =>
      MembersWellFormed(members);
      Bracketed(123, PrintedMembers(members), 125);
    case _ =>
  }

  lemma {:induction false} Bracketed(opening: Unit, inner: Text, closing: Unit)
    requires opening < 128 && closing < 128 && Utf8.WellFormed(inner)
    ensures Utf8.WellFormed([opening] + inner + [closing])
  {
    AsciiWellFormed([opening]);
    AsciiWellFormed([closing]);
    hide Utf8.WellFormed;
    WellFormedConcat([opening], inner);
    WellFormedConcat([opening] + inner, [closing]);
  }

  lemma {:induction false} ItemsWellFormed(items: seq<Js>)
    ensures Utf8.WellFormed(PrintedItems(items))
    decreases items, 0
  {
    if items != [] {
      PrintedWellFormed(items[0]);
      ItemsWellFormed(items[1..]);
      AsciiWellFormed([COMMA]);
      AsciiWellFormed([]);
      hide Printed, Utf8.WellFormed;
      WellFormedConcat([COMMA], PrintedItems(items[1..]));
      WellFormedConcat(Printed(items[0]), if |items| == 1 then [] else [COMMA] + PrintedItems(items[1..]));
    }
  }

  lemma {:induction false} MembersWellFormed(members: seq<Entry>)
    ensures Utf8.WellFormed(PrintedMembers(members))
    decreases members, 0
  {
    if members != [] {
      var name := members[0].name;
      QuoteWellFormed(name);
      PrintedWellFormed(members[0].value);
      MembersWellFormed(members[1..]);
      AsciiWellFormed([COMMA]);
      AsciiWellFormed([COLON]);
      AsciiWellFormed([]);
      hide Printed, Quote, Utf8.WellFormed;
      WellFormedConcat(Quote(name), [COLON]);
      WellFormedConcat(Quote(name) + [COLON], Printed(members[0].value));
      WellFormedConcat([COMMA], PrintedMembers(members[1..]));
      WellFormedConcat(MemberText(name, Printed(members[0].value)),
                       if |members| == 1 then [] else [COMMA] + PrintedMembers(members[1..]));
    }
  }

  // ----- what is signed verifies -----

  // Text that goes out through UTF-8 and base64url comes back the same.
  lemma {:induction false} TextReads(text: Text)
    requires Utf8.WellFormed(text) && text != [] && text[0] != Utf8.BOM
    ensures var segment := Base64Url.Encode(Utf8.Encode(text));
      && Base64Url.Decode(segment) == Base64Url.Bytes(Utf8.Encode(text))
      && Utf8.Decode(Utf8.Encode(text)) == Utf8.Decoded(text)
      && NoDot(segment)
  {
    var bytes := Utf8.Encode(text);
    Utf8.DecodeEncode(text);
    EncodedNoDot(bytes);
    hide NoDot, Base64Url.Encode, Base64Url.Decode;
    Base64Url.DecodeIsExact(Base64Url.Encode(bytes), bytes);
  }

  lemma {:induction false} EncodedNoDot(bytes: Bytes)
    ensures NoDot(Base64Url.Encode(bytes))
  {
    Base64Url.EncodeReads(bytes);
    hide Base64Url.Encode;
    assert forall i :: 0 <= i < |Base64Url.Encode(bytes)| ==> Base64Url.Sextet(Base64Url.Encode(bytes)[i]) >= 0;
  }

  lemma {:induction false} ObjectText(v: Js)
    requires v.Obj? && Serializable(v) && WellKeyed(v)
    ensures Canonical(v).Written? && Canonical(v).text != [] && Canonical(v).text[0] == 123
    ensures Utf8.WellFormed(Canonical(v).text)
  {
    CanonicalPrints(v);
    PrintedWellFormed(Normal(v));
    hide Canonical, Utf8.WellFormed, Serializable, WellKeyed;
  }

  lemma {:induction false} SegmentReads(v: Js)
    requires v.Obj? && Serializable(v) && WellKeyed(v)
    ensures ParseObject(Segment(v)) == Normal(v) && Segment(Normal(v)) == Segment(v) && NoDot(Segment(v))
  {
    CanonicalReadsBack(v);
    CanonicalIsFixed(v);
    ObjectText(v);
    assert Normal(v).Obj?;
    hide Canonical, Normal, Parse, Serializable, WellKeyed, NoDot, Utf8.Encode, Utf8.Decode, Utf8.WellFormed,
         Base64Url.Encode, Base64Url.Decode;
    TextReads(Canonical(v).text);
  }

  lemma {:induction false} HeaderNames()
    ensures ALG != KID && ALG != TYP && KID != TYP
    ensures UnitsLeq(ALG, KID) && UnitsLeq(ALG, TYP) && UnitsLeq(KID, TYP)
  {
    assert ALG[0] == 97 && KID[0] == 107 && TYP[0] == 116;
  }

  lemma {:induction false} HeaderSorted(kid: Text)
    ensures SortOn(Header(kid).members, NameKey) == Header(kid).members
  {
    hide UnitsLeq, SortOn;
    HeaderNames();
    SortedIsFixed(Header(kid).members, NameKey);
  }

  lemma {:induction false} HeaderKeyed(kid: Text)
    ensures Serializable(Header(kid)) && WellKeyed(Header(kid))
  {
    hide UnitsLeq;
    HeaderNames();
  }

  lemma {:induction false} HeaderNormal(kid: Text)
    ensures Normal(Header(kid)) == Header(kid) && Serializable(Header(kid)) && WellKeyed(Header(kid))
  {
    hide UnitsLeq, SortOn, Serializable, WellKeyed, NormalMembers;
    HeaderSorted(kid);
    HeaderKeyed(kid);
    assert Settled(Header(kid).members);
    SettledStays(Header(kid).members);
  }

  lemma {:induction false} HeaderAccepted(kid: Text)
    requires kid != []
    ensures HeaderOk(Header(kid)) && Get(Header(kid).members, KID) == Str(kid)
  {
    HeaderNames();
    hide UnitsLeq;
    var members := Header(kid).members;
    assert Get(members[1..], KID) == Str(kid);
    assert Get(members[1..][1..], TYP) == Str(ENVELOPE_TYPE);
    assert Get(members[1..], TYP) == Str(ENVELOPE_TYPE);
  }

  // Three encoded segments parse into the three things they encode.
  lemma {:induction false} ThreeParse(kid: Text, payload: Js, signature: Bytes)
    requires kid != [] && payload.Obj? && Serializable(payload) && WellKeyed(payload) && signature != []
    ensures var s := Assemble(kid, payload, signature);
      && Split(s) == [Segment(Header(kid)), Segment(payload), Base64Url.Encode(signature)]
      && ParseEnvelope(s) == if |s| > MAX_BYTES then Rejected else Accepted(Envelope(kid, Normal(payload), signature))
  {
    var header := Header(kid);
    HeaderNormal(kid);
    HeaderAccepted(kid);
    SegmentReads(header);
    SegmentReads(payload);
    NormalUndefined(payload);
    Base64Url.DecodeIsExact(Base64Url.Encode(signature), signature);
    EncodedNoDot(signature);
    hide Header, HeaderOk, Segment, ParseObject, Normal, Serializable, WellKeyed, NoDot, Base64Url.Encode,
         Base64Url.Decode, Split, Get;
    SplitThree(Segment(header), Segment(payload), Base64Url.Encode(signature));
  }

  // Verifying a freshly signed payload under the matching key returns exactly the key id, the
  // payload and the signature - unless the string is longer than the verifier will read.
  lemma {:induction false} SignedVerifies(ed: Scheme, payload: Js, signer: Signer)
    requires Sound(ed) && signer.kid != []
    requires payload.Obj? && Serializable(payload) && WellKeyed(payload)
    ensures var s := Sign(ed, payload, signer);
      Verify(ed, s, Jwk(signer.kid, signer.key))
      == if |s| > MAX_BYTES then Rejected
         else Accepted(Envelope(signer.kid, Normal(payload), ed.sign(signer.key, SigningInput(signer.kid, payload))))
  {
    var signature := ed.sign(signer.key, SigningInput(signer.kid, payload));
    ThreeParse(signer.kid, payload, signature);
    SegmentReads(payload);
    hide Header, Segment, ParseEnvelope, ParseObject, Normal, Split, Assemble, Base64Url.Encode;
  }

  // A string verifies to a triple if and only if it is that triple's one spelling within the limit, under
  // the key's own id, with a payload as canonical text gives it and 64 bytes that verify.
  lemma {:induction false} VerifyIsExact(ed: Scheme, s: Text, jwk: Jwk, e: Envelope)
    ensures Verify(ed, s, jwk) == Accepted(e) <==>
      && s == Assemble(e.kid, e.payload, e.signature) && |s| <= 65_536
      && e.kid == jwk.kid && e.kid != [] && |e.signature| == 64
      && e.payload.Obj? && Serializable(e.payload) && WellKeyed(e.payload) && Normal(e.payload) == e.payload
      && ed.verify(jwk.key, SigningInput(e.kid, e.payload), e.signature)
  {
    hide Assemble, ParseEnvelope, Split, Segment, Serializable, WellKeyed, Normal, SigningInput;
    if Verify(ed, s, jwk) == Accepted(e) {
      OneSpelling(ed, s, jwk);
      PayloadIsNormal(s, jwk, ed);
    }
    if e.kid != [] && |e.signature| == 64 && e.payload.Obj? && Serializable(e.payload) && WellKeyed(e.payload) {
      ThreeParse(e.kid, e.payload, e.signature);
      InputIs(e.kid, e.payload);
    }
  }

  lemma {:induction false} InputIs(kid: Text, payload: Js)
    ensures SigningInput(kid, payload) == Segment(Header(kid)) + [DOT] + Segment(payload)
  {
  }

  lemma {:induction false} PayloadIsNormal(s: Text, jwk: Jwk, ed: Scheme)
    requires Verify(ed, s, jwk).Accepted?
    ensures var payload := Verify(ed, s, jwk).envelope.payload;
      payload.Obj? && Serializable(payload) && WellKeyed(payload) && Normal(payload) == payload
  {
    hide Split, Segment, Serializable, WellKeyed, Normal, ParseObject, HeaderOk;
    var parts := Split(s);
    ObjectsArePlain(parts[1]);
    ObjectOrNone(parts[1]);
    SegmentReads(ParseObject(parts[1]));
  }

  lemma {:induction false} ObjectOrNone(segment: Text)
    ensures ParseObject(segment).Obj? || ParseObject(segment).Undefined?
  {
    hide Parse, Utf8.Decode, Base64Url.Decode;
  }

  // ----- the header, letter by letter -----

  lemma {:induction false} NamesAre()
    ensures ALG == ['a' as int, 'l' as int, 'g' as int] && KID == ['k' as int, 'i' as int, 'd' as int]
    ensures TYP == ['t' as int, 'y' as int, 'p' as int]
    ensures EDDSA == ['E' as int, 'd' as int, 'D' as int, 'S' as int, 'A' as int]
    ensures ENVELOPE_TYPE
      == ['p' as int, 'a' as int, 'r' as int, 'i' as int, 'm' as int, 'i' as int, 't' as int, '-' as int]
         + ['a' as int, 'u' as int, 't' as int, 'h' as int, 'z' as int, '-' as int]
         + ['e' as int, 'n' as int, 'v' as int, 'e' as int, 'l' as int, 'o' as int, 'p' as int, 'e' as int, '+' as int,
           'j' as int, 'w' as int, 's' as int]
  {
  }

  // A member whose value is a string.
  function Pair(name: Text, value: Text): Text { Quote(name) + [':' as int] + Quote(value) }

  // {"alg":"EdDSA","kid":<the key id>,"typ":"parimit-authz-envelope+jws"}
  lemma {:induction false} HeaderText(kid: Text)
    ensures Canonical(Header(kid)).Written?
    ensures Canonical(Header(kid)).text
      == ['{' as int] + Pair(ALG, EDDSA) + [',' as int] + Pair(KID, kid) + [',' as int] + Pair(TYP, ENVELOPE_TYPE)
         + ['}' as int]
  {
    hide *;
    HeaderNormal(kid);
    CanonicalPrints(Header(kid));
    ThreeText(ALG, EDDSA, KID, kid, TYP, ENVELOPE_TYPE);
    HeaderIsThree(kid);
  }

  lemma {:induction false} HeaderIsThree(kid: Text)
    ensures Header(kid) == Obj([Entry(ALG, Str(EDDSA)), Entry(KID, Str(kid)), Entry(TYP, Str(ENVELOPE_TYPE))])
  {
  }

  lemma {:induction false} ThreeText(a: Text, x: Text, b: Text, y: Text, c: Text, z: Text)
    ensures Printed(Obj([Entry(a, Str(x)), Entry(b, Str(y)), Entry(c, Str(z))]))
      == ['{' as int] + Pair(a, x) + [',' as int] + Pair(b, y) + [',' as int] + Pair(c, z) + ['}' as int]
  {
    hide Printed, Quote;
    var p, q, r := Entry(a, Str(x)), Entry(b, Str(y)), Entry(c, Str(z));
    assert [p, q, r] == [p] + [q, r] && [q, r] == [q] + [r];
    MembersAre(p, [q, r]);
    MembersAre(q, [r]);
    MembersAre(r, []);
    StringsPrint(x);
    StringsPrint(y);
    StringsPrint(z);
    ThreeMembers(Pair(a, x), Pair(b, y), Pair(c, z));
  }

  lemma {:induction false} ThreeMembers(a: Text, b: Text, c: Text)
    ensures var last := ['{' as int] + c + ['}' as int];
      var both := ['{' as int] + b + [',' as int] + last[1..];
      ['{' as int] + a + [',' as int] + both[1..]
      == ['{' as int] + a + [',' as int] + b + [',' as int] + c + ['}' as int]
  {
    var last := ['{' as int] + c + ['}' as int];
    var both := ['{' as int] + b + [',' as int] + last[1..];
    assert last[1..] == c + ['}' as int];
    assert both[1..] == b + [',' as int] + (c + ['}' as int]);
  }

  lemma {:induction false} StringsPrint(text: Text)
    ensures Printed(Str(text)) == Quote(text)
  {
  }

  // Text without control characters, quotes, backslashes and lone surrogates stands as it is.
  lemma {:induction false} QuoteStands(text: Text)
    requires Utf8.WellFormed(text)
    requires forall i :: 0 <= i < |text| ==> text[i] >= 32 && text[i] != '\"' as int && text[i] != '\\' as int
    ensures Quote(text) == ['\"' as int] + text + ['\"' as int]
  {
    BodyStands(text);
  }

  lemma {:induction false} BodyStands(text: Text)
    requires Utf8.WellFormed(text)
    requires forall i :: 0 <= i < |text| ==> text[i] >= 32 && text[i] != 34 && text[i] != 92
    ensures QuoteBody(text) == text
    decreases |text|
  {
    if text == [] {
    } else if IsHigh(text[0]) {
      BodyStands(text[2..]);
      assert text == text[..2] + text[2..];
    } else {
      BodyStands(text[1..]);
      assert text == [text[0]] + text[1..];
    }
  }
}
