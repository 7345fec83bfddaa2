// JSON text as JSON.stringify writes it and JSON.parse reads it (RFC 8259). Text is a sequence
// of UTF-16 code units, lone surrogates included; a number is the exact decimal it spells.
module Json {
  import opened Ordering

  type Unit = u: int | 0 <= u < 0x1_0000
  type Text = seq<Unit>

  // mantissa / 10^scale
  datatype Ratio = Ratio(mantissa: int, scale: nat)

  // A number that is no integer, in its one shortest form.
  type Fraction = f: Ratio | f.scale >= 1 && f.mantissa % 10 != 0 witness Ratio(1, 1)

  // A JavaScript value; Hole is a missing array element, Unsupported anything typeof calls
  // function, symbol or bigint.
  datatype Js =
    | Undefined | Hole | Unsupported | NonFinite
    | Null | Bool(flag: bool) | Num(number: int) | Frac(fraction: Fraction) | Str(text: Text)
    | Arr(items: seq<Js>)
    | Obj(members: seq<Entry>)

  datatype Entry = Entry(name: Text, value: Js)

  function CodeUnit(c: char): Unit { if c as int < 0x1_0000 then c as int else 0xFFFD }

  // An ASCII literal as a text.
  function Ascii(s: string): (t: Text)
    ensures |t| == |s|
  {
    seq(|s|, i requires 0 <= i < |s| => CodeUnit(s[i]))
  }

  function NameKey(e: Entry): Key { Key(0, e.name) }

  // record[name]
  function Get(members: seq<Entry>, name: Text): Js {
    if members == [] then Undefined
    else if members[0].name == name then members[0].value
    else Get(members[1..], name)
  }

  // ----- writing -----

  const NULL_TEXT: Text := [110, 117, 108, 108]
  const TRUE_TEXT: Text := [116, 114, 117, 101]
  const FALSE_TEXT: Text := [102, 97, 108, 115, 101]
  const QUOTE: Unit := 34
  const BACKSLASH: Unit := 92
  const COMMA: Unit := 44
  const COLON: Unit := 58
  const MINUS: Unit := 45
  const PLUS: Unit := 43
  const POINT: Unit := 46
  const ZERO: Unit := 48

  function HexDigit(d: int): Unit
    requires 0 <= d < 16
  {
    if d < 10 then 48 + d else 87 + d
  }

  function Hex4(u: Unit): Text {
    [HexDigit(u / 4096), HexDigit(u / 256 % 16), HexDigit(u / 16 % 16), HexDigit(u % 16)]
  }

  predicate IsHigh(u: Unit) { 0xD800 <= u < 0xDC00 }
  predicate IsLow(u: Unit) { 0xDC00 <= u < 0xE000 }

  // The two-character escapes.
  function ShortEscape(u: Unit): Text {
    if u == QUOTE || u == BACKSLASH then [BACKSLASH, u]
    else if u == 8 then [BACKSLASH, 98]
    else if u == 9 then [BACKSLASH, 116]
    else if u == 10 then [BACKSLASH, 110]
    else if u == 12 then [BACKSLASH, 102]
    else if u == 13 then [BACKSLASH, 114]
    else []
  }

  function EscapeUnit(u: Unit): Text {
    if ShortEscape(u) != [] then ShortEscape(u)
    else if u < 32 || IsHigh(u) || IsLow(u) then [BACKSLASH, 117] + Hex4(u)
    else [u]
  }

  // Pairs of surrogates are written as they are, lone ones escaped.
  function QuoteBody(text: Text): Text {
    if text == [] then []
    else if |text| >= 2 && IsHigh(text[0]) && IsLow(text[1]) then text[..2] + QuoteBody(text[2..])
    else EscapeUnit(text[0]) + QuoteBody(text[1..])
  }

  function Quote(text: Text): Text { [QUOTE] + QuoteBody(text) + [QUOTE] }

  function Digits(n: nat): (d: Text)
    ensures d != []
  {
    if n < 10 then [48 + n] else Digits(n / 10) + [48 + n % 10]
  }

  function Decimal(n: int): Text { if n < 0 then [MINUS] + Digits(-n) else Digits(n) }

  function Zeros(n: nat): Text { seq(n, _ => ZERO) }

  function ExponentText(e: int): Text { [101, if e < 0 then MINUS else PLUS] + Digits(if e < 0 then -e else e) }

  // Number::toString (section 6.1.6.1.20 of ECMA-262) of digits / 10^scale.
  function PointText(digits: Text, scale: nat): Text
    requires digits != [] && scale >= 1
  {
    var n := |digits| - scale;
    if 0 < n <= 21 then digits[..n] + [POINT] + digits[n..]
    else if -6 < n <= 0 then [ZERO] + [POINT] + (Zeros(-n) + digits)
    else digits[..1] + (if |digits| == 1 then [] else [POINT] + digits[1..]) + ExponentText(n - 1)
  }

  function Magnitude(n: int): nat { if n < 0 then -n else n }

  function FractionText(f: Fraction): Text {
    (if f.mantissa < 0 then [MINUS] else []) + PointText(Digits(Magnitude(f.mantissa)), f.scale)
  }

  function Join(parts: seq<Text>): Text {
    if parts == [] then []
    else if |parts| == 1 then parts[0]
    else parts[0] + [COMMA] + Join(parts[1..])
  }

  // ----- reading -----

  datatype Parsed<+T> = Parsed(value: T, rest: Text) | Malformed

  predicate IsDigit(u: Unit) { 48 <= u < 58 }

  predicate IsSpace(u: Unit) { u == 32 || u == 9 || u == 10 || u == 13 }

  function SkipSpace(s: Text): (rest: Text)
    ensures |rest| <= |s|
  {
    if s != [] && IsSpace(s[0]) then SkipSpace(s[1..]) else s
  }

  function HexValue(u: Unit): int {
    if IsDigit(u) then u - 48
    else if 97 <= u < 103 then u - 87
    else if 65 <= u < 71 then u - 55
    else -1
  }

  function ReadHex4(s: Text): Parsed<Unit> {
    if |s| < 4 || HexValue(s[0]) < 0 || HexValue(s[1]) < 0 || HexValue(s[2]) < 0 || HexValue(s[3]) < 0 then Malformed
    else Parsed(HexValue(s[0]) * 4096 + HexValue(s[1]) * 256 + HexValue(s[2]) * 16 + HexValue(s[3]), s[4..])
  }

  function ReadEscape(s: Text): (p: Parsed<Unit>)
    ensures p.Parsed? ==> |p.rest| < |s|
  {
    if s == [] then Malformed
    else if s[0] == QUOTE || s[0] == BACKSLASH || s[0] == 47 then Parsed(s[0], s[1..])
    else if s[0] == 98 then Parsed(8, s[1..])
    else if s[0] == 102 then Parsed(12, s[1..])
    else if s[0] == 110 then Parsed(10, s[1..])
    else if s[0] == 114 then Parsed(13, s[1..])
    else if s[0] == 116 then Parsed(9, s[1..])
    else if s[0] == 117 then ReadHex4(s[1..])
    else Malformed
  }

  // After the opening quote, up to and including the closing one.
  function ReadBody(s: Text): (p: Parsed<Text>)
    ensures p.Parsed? ==> |p.rest| < |s|
    decreases |s|
  {
    if s == [] || s[0] < 32 then Malformed
    else if s[0] == QUOTE then Parsed([], s[1..])
    else
      var unit := if s[0] == BACKSLASH then ReadEscape(s[1..]) else Parsed(s[0], s[1..]);
      if unit.Malformed? then Malformed
      else
        var more := ReadBody(unit.rest);
        if more.Malformed? then Malformed else Parsed([unit.value] + more.value, more.rest)
  }

  function ReadString(s: Text): (p: Parsed<Text>)
    ensures p.Parsed? ==> |p.rest| < |s|
  {
    if s == [] || s[0] != QUOTE then Malformed else ReadBody(s[1..])
  }

  function ReadDigits(s: Text, acc: nat): (p: (nat, Text))
    ensures |p.1| <= |s|
    decreases |s|
  {
    if s == [] || !IsDigit(s[0]) then (acc, s) else ReadDigits(s[1..], acc * 10 + (s[0] - 48))
  }

  // The digits before the point: no leading zero.
  function ReadNatural(s: Text): (p: Parsed<nat>)
    ensures p.Parsed? ==> |p.rest| < |s|
  {
    if s == [] || !IsDigit(s[0]) then Malformed
    else if s[0] == ZERO then Parsed(0, s[1..])
    else
      var read := ReadDigits(s[1..], s[0] - 48);
      Parsed(read.0, read.1)
  }

  // The point and the digits after it, if any, which go on from those before it.
  function ReadPoint(s: Text, whole: nat): (p: Parsed<Ratio>)
    ensures p.Parsed? ==> |p.rest| <= |s|
  {
    if s == [] || s[0] != POINT then Parsed(Ratio(whole, 0), s)
    else
      var read := ReadDigits(s[1..], whole);
      var scale := |s[1..]| - |read.1|;
      if scale == 0 then Malformed else Parsed(Ratio(read.0, scale), read.1)
  }

  function ReadExponent(s: Text): (p: Parsed<int>)
    ensures p.Parsed? ==> |p.rest| <= |s|
  {
    if s == [] || (s[0] != 69 && s[0] != 101) then Parsed(0, s)
    else
      var signed := |s| >= 2 && (s[1] == MINUS || s[1] == PLUS);
      var digits := if signed then s[2..] else s[1..];
      var read := ReadDigits(digits, 0);
      if |read.1| == |digits| then Malformed
      else
        var e: int := read.0;
        Parsed(if signed && s[1] == MINUS then -e else e, read.1)
  }

  function Power(e: nat): nat { if e == 0 then 1 else 10 * Power(e - 1) }

  // mantissa / 10^scale as a value.
  function Quotient(mantissa: int, scale: int): (v: Js)
    ensures v.Num? || v.Frac?
    decreases if scale < 0 then 0 else scale
  {
    if scale <= 0 then Num(mantissa * Power(-scale))
    else if mantissa % 10 == 0 then Quotient(mantissa / 10, scale - 1)
    else Frac(Ratio(mantissa, scale))
  }

  datatype Scaled = Scaled(mantissa: nat, scale: int)

  function ReadUnsigned(s: Text): (p: Parsed<Scaled>)
    ensures p.Parsed? ==> |p.rest| < |s|
  {
    var whole := ReadNatural(s);
    if whole.Malformed? then Malformed
    else
      var point := ReadPoint(whole.rest, whole.value);
      if point.Malformed? then Malformed
      else
        var exponent := ReadExponent(point.rest);
        if exponent.Malformed? then Malformed
        else Parsed(Scaled(point.value.mantissa, point.value.scale - exponent.value), exponent.rest)
  }

  function ReadNumber(s: Text): (p: Parsed<Js>)
    ensures p.Parsed? ==> |p.rest| < |s|
  {
    var negative := s != [] && s[0] == MINUS;
    var read := ReadUnsigned(if negative then s[1..] else s);
    if read.Malformed? then Malformed
    else
      var m: int := read.value.mantissa;
      Parsed(Quotient(if negative then -m else m, read.value.scale), read.rest)
  }

  function ReadWord(s: Text, word: Text, value: Js): (p: Parsed<Js>)
    requires word != []
    ensures p.Parsed? ==> |p.rest| < |s|
  {
    if word <= s then Parsed(value, s[|word|..]) else Malformed
  }

  // A later member of the same name replaces the value of the earlier one.
  function Put(members: seq<Entry>, name: Text, value: Js): seq<Entry> {
    if members == [] then [Entry(name, value)]
    else if members[0].name == name then [Entry(name, value)] + members[1..]
    else [members[0]] + Put(members[1..], name, value)
  }

  function ReadValue(s: Text): (p: Parsed<Js>)
    ensures p.Parsed? ==> |p.rest| < |s|
    decreases |s|, 0
  {
    if s == [] then Malformed
    else if IsSpace(s[0]) then ReadValue(s[1..])
    else if s[0] == QUOTE then
      var text := ReadString(s);
      if text.Malformed? then Malformed else Parsed(Str(text.value), text.rest)
    else if s[0] == 91 then
      var after := SkipSpace(s[1..]);
      if after != [] && after[0] == 93 then Parsed(Arr([]), after[1..]) else ReadItems(s[1..], [])
    else if s[0] == 123 then
      var after := SkipSpace(s[1..]);
      if after != [] && after[0] == 125 then Parsed(Obj([]), after[1..]) else ReadMembers(s[1..], [])
    else if s[0] == 110 then ReadWord(s, NULL_TEXT, Null)
    else if s[0] == 116 then ReadWord(s, TRUE_TEXT, Bool(true))
    else if s[0] == 102 then ReadWord(s, FALSE_TEXT, Bool(false))
    else ReadNumber(s)
  }

  // Elements up to the closing bracket.
  function ReadItems(s: Text, done: seq<Js>): (p: Parsed<Js>)
    ensures p.Parsed? ==> |p.rest| < |s|
    decreases |s|, 1
  {
    var item := ReadValue(s);
    if item.Malformed? then Malformed
    else
      var after := SkipSpace(item.rest);
      if after == [] then Malformed
      else if after[0] == 93 then Parsed(Arr(done + [item.value]), after[1..])
      else if after[0] == COMMA then ReadItems(after[1..], done + [item.value])
      else Malformed
  }

  // Members up to the closing brace.
  function ReadMembers(s: Text, done: seq<Entry>): (p: Parsed<Js>)
    ensures p.Parsed? ==> |p.rest| < |s|
    decreases |s|, 1
  {
    var name := ReadString(SkipSpace(s));
    if name.Malformed? then Malformed
    else
      var colon := SkipSpace(name.rest);
      if colon == [] || colon[0] != COLON then Malformed
      else
        var value := ReadValue(colon[1..]);
        if value.Malformed? then Malformed
        else
          var after := SkipSpace(value.rest);
          if after == [] then Malformed
          else if after[0] == 125 then Parsed(Obj(Put(done, name.value, value.value)), after[1..])
          else if after[0] == COMMA then ReadMembers(after[1..], Put(done, name.value, value.value))
          else Malformed
  }

  // JSON.parse
  function Parse(s: Text): Parsed<Js> {
    var p := ReadValue(s);
    if p.Parsed? && SkipSpace(p.rest) == [] then Parsed(p.value, []) else Malformed
  }

  // ----- what is written reads back -----

  lemma {:induction false} HexDigitReads(d: int)
    requires 0 <= d < 16
    ensures HexValue(HexDigit(d)) == d
  {
  }

  lemma {:induction false} HexParts(u: Unit)
    ensures 0 <= u / 4096 < 16
    ensures u / 4096 * 4096 + u / 256 % 16 * 256 + u / 16 % 16 * 16 + u % 16 == u
  {
    var x, y := u / 16, u / 256;
    assert u == 16 * x + u % 16 && x == 16 * y + x % 16 && y == 16 * (u / 4096) + y % 16;
  }

  lemma {:induction false} HexReads(u: Unit, rest: Text)
    ensures ReadHex4(Hex4(u) + rest) == Parsed(u, rest)
  {
    var s := Hex4(u) + rest;
    assert s[4..] == rest;
    HexParts(u);
    HexDigitReads(u / 4096);
    HexDigitReads(u / 256 % 16);
    HexDigitReads(u / 16 % 16);
    HexDigitReads(u % 16);
    hide HexValue, HexDigit;
  }

  lemma {:induction false} EscapeReads(u: Unit, rest: Text)
    requires EscapeUnit(u) != [u]
    ensures EscapeUnit(u)[0] == BACKSLASH && ReadEscape(EscapeUnit(u)[1..] + rest) == Parsed(u, rest)
  {
    hide ReadHex4, Hex4;
    var s := EscapeUnit(u)[1..] + rest;
    assert s[1..] == EscapeUnit(u)[2..] + rest;
    if ShortEscape(u) != [] {
      assert EscapeUnit(u)[2..] == [] && s[1..] == rest;
    } else {
      assert EscapeUnit(u)[2..] == Hex4(u);
      HexReads(u, rest);
    }
  }

  // One plain unit, then the rest of the body.
  lemma {:induction false} PlainStep(u: Unit, tail: Text)
    requires u >= 32 && u != QUOTE && u != BACKSLASH && ReadBody(tail).Parsed?
    ensures ReadBody([u] + tail) == Parsed([u] + ReadBody(tail).value, ReadBody(tail).rest)
  {
    assert ([u] + tail)[1..] == tail;
  }

  lemma {:induction false} EscapeStep(u: Unit, tail: Text)
    requires EscapeUnit(u) != [u] && ReadBody(tail).Parsed?
    ensures ReadBody(EscapeUnit(u) + tail) == Parsed([u] + ReadBody(tail).value, ReadBody(tail).rest)
  {
    hide ReadEscape;
    EscapeReads(u, tail);
    hide EscapeUnit;
    assert (EscapeUnit(u) + tail)[1..] == EscapeUnit(u)[1..] + tail;
  }

  lemma {:induction false} Regroup(a: Text, b: Text, rest: Text)
    ensures (a + b) + [QUOTE] + rest == a + (b + [QUOTE] + rest)
  {
  }

  lemma {:induction false} EmptyBodyReads(rest: Text)
    ensures ReadBody([] + [QUOTE] + rest) == Parsed([], rest)
  {
    assert [] + [QUOTE] + rest == [QUOTE] + rest;
    assert ([QUOTE] + rest)[1..] == rest;
  }

  // A pair of surrogates, then the rest of the body.
  lemma {:induction false} PairStep(u: Unit, v: Unit, tail: Text)
    requires IsHigh(u) && IsLow(v) && ReadBody(tail).Parsed?
    ensures ReadBody([u, v] + tail) == Parsed([u, v] + ReadBody(tail).value, ReadBody(tail).rest)
  {
    PlainStep(v, tail);
    PlainStep(u, [v] + tail);
    assert [u, v] + tail == [u] + ([v] + tail);
    assert [u] + ([v] + ReadBody(tail).value) == [u, v] + ReadBody(tail).value;
  }

  lemma {:induction false} BodyReads(text: Text, rest: Text)
    ensures ReadBody(QuoteBody(text) + [QUOTE] + rest) == Parsed(text, rest)
    decreases |text|
  {
    hide ReadBody, EscapeUnit;
    if text == [] {
      EmptyBodyReads(rest);
    } else if |text| >= 2 && IsHigh(text[0]) && IsLow(text[1]) {
      BodyReads(text[2..], rest);
      PairStep(text[0], text[1], QuoteBody(text[2..]) + [QUOTE] + rest);
      Regroup(text[..2], QuoteBody(text[2..]), rest);
      assert text[..2] == [text[0], text[1]] && text == text[..2] + text[2..];
    } else {
      var tail := QuoteBody(text[1..]) + [QUOTE] + rest;
      BodyReads(text[1..], rest);
      UnitStep(text[0], tail);
      Regroup(EscapeUnit(text[0]), QuoteBody(text[1..]), rest);
      assert text == [text[0]] + text[1..];
    }
  }

  lemma {:induction false} UnitStep(u: Unit, tail: Text)
    requires ReadBody(tail).Parsed?
    ensures ReadBody(EscapeUnit(u) + tail) == Parsed([u] + ReadBody(tail).value, ReadBody(tail).rest)
  {
    if EscapeUnit(u) == [u] {
      EscapesNeeded(u);
      PlainStep(u, tail);
    } else {
      EscapeStep(u, tail);
    }
  }

  lemma {:induction false} EscapesNeeded(u: Unit)
    requires EscapeUnit(u) == [u]
    ensures u >= 32 && u != QUOTE && u != BACKSLASH
  {
  }

  lemma {:induction false} QuoteReads(text: Text, rest: Text)
    ensures Quote(text) + rest != [] && (Quote(text) + rest)[0] == QUOTE
    ensures ReadString(Quote(text) + rest) == Parsed(text, rest)
  {
    BodyReads(text, rest);
    assert (Quote(text) + rest)[1..] == QuoteBody(text) + [QUOTE] + rest;
  }

  predicate AllDigits(d: Text) { forall i :: 0 <= i < |d| ==> IsDigit(d[i]) }

  predicate NoDigit(rest: Text) { rest == [] || !IsDigit(rest[0]) }

  // The number a run of digits spells.
  function Value(d: Text): nat { ReadDigits(d, 0).0 }

  lemma {:induction false} DigitsRead(n: nat, rest: Text)
    ensures AllDigits(Digits(n)) && ReadDigits(Digits(n) + rest, 0) == ReadDigits(rest, n)
    ensures n > 0 ==> Digits(n)[0] != ZERO
  {
    hide IsSpace, IsHigh, IsLow;
    var s := Digits(n) + rest;
    if n < 10 {
      assert s[0] == 48 + n && s[1..] == rest;
    } else {
      var tail := [48 + n % 10] + rest;
      DigitsRead(n / 10, tail);
      assert s == Digits(n / 10) + tail;
      assert tail[1..] == rest;
    }
  }

  lemma {:induction false} DigitsValue(n: nat)
    ensures Value(Digits(n)) == n
  {
    DigitsRead(n, []);
    assert Digits(n) + [] == Digits(n);
  }

  // Reading a run of digits goes on with what follows it.
  lemma {:induction false} DigitsPass(d: Text, rest: Text, acc: nat)
    requires AllDigits(d)
    ensures ReadDigits(d + rest, acc) == ReadDigits(rest, ReadDigits(d, acc).0)
  {
    if d == [] {
      assert d + rest == rest;
    } else {
      DigitsPass(d[1..], rest, acc * 10 + (d[0] - 48));
      assert (d + rest)[1..] == d[1..] + rest;
    }
  }

  // The value of a run in two pieces; of the second after the first.
  lemma {:induction false} ValueSplit(a: Text, b: Text)
    requires AllDigits(a)
    ensures Value(a + b) == ReadDigits(b, Value(a)).0
  {
    DigitsPass(a, b, 0);
  }

  lemma {:induction false} ZerosValue(n: nat, d: Text)
    ensures AllDigits(Zeros(n)) && Value(Zeros(n) + d) == Value(d)
  {
    if n == 0 {
      assert Zeros(n) + d == d;
    } else {
      ZerosValue(n - 1, d);
      hide Zeros;
      ZeroFirst(n, d);
    }
  }

  lemma {:induction false} ZeroFirst(n: nat, d: Text)
    requires n > 0
    ensures AllDigits(Zeros(n - 1)) ==> AllDigits(Zeros(n))
    ensures Value(Zeros(n) + d) == Value(Zeros(n - 1) + d)
  {
    assert Zeros(n) == [ZERO] + Zeros(n - 1);
    assert (Zeros(n) + d)[1..] == Zeros(n - 1) + d;
  }

  // What can follow a value inside a canonical text.
  predicate Delimited(rest: Text) { rest == [] || rest[0] == COMMA || rest[0] == 93 || rest[0] == 125 }

  lemma {:induction false} NaturalReads(d: Text, rest: Text)
    requires d != [] && AllDigits(d) && (d[0] == ZERO ==> |d| == 1) && NoDigit(rest)
    ensures ReadNatural(d + rest) == Parsed(Value(d), rest)
  {
    var s := d + rest;
    assert s[1..] == d[1..] + rest;
    if d[0] == ZERO {
      assert d[1..] == [] && s[1..] == rest && ReadDigits([], 0) == (0, []);
    } else {
      DigitsPass(d[1..], rest, d[0] - 48);
    }
  }

  // The point and a run of digits.
  lemma {:induction false} PointReads(d: Text, rest: Text, whole: nat)
    requires d != [] && AllDigits(d) && NoDigit(rest)
    ensures ReadPoint([POINT] + d + rest, whole) == Parsed(Ratio(ReadDigits(d, whole).0, |d|), rest)
  {
    var s := [POINT] + d + rest;
    assert s[1..] == d + rest;
    DigitsPass(d, rest, whole);
  }

  lemma {:induction false} NoPoint(rest: Text, whole: nat)
    requires rest == [] || rest[0] != POINT
    ensures ReadPoint(rest, whole) == Parsed(Ratio(whole, 0), rest)
  {
  }

  lemma {:induction false} ExponentReads(e: int, rest: Text)
    requires Delimited(rest)
    ensures ReadExponent(ExponentText(e) + rest) == Parsed(e, rest)
  {
    var d := Digits(Magnitude(e));
    var s := ExponentText(e) + rest;
    DigitsRead(Magnitude(e), rest);
    hide Digits;
    assert s[2..] == d + rest;
  }

  lemma {:induction false} UnsignedStep(d: Text, point: Text, exponent: Text, rest: Text, value: nat, scale: nat,
                                        e: int)
    requires d != [] && AllDigits(d) && (d[0] == ZERO ==> |d| == 1) && NoDigit(point + exponent + rest)
    requires ReadPoint(point + (exponent + rest), Value(d)) == Parsed(Ratio(value, scale), exponent + rest)
    requires ReadExponent(exponent + rest) == Parsed(e, rest)
    ensures ReadUnsigned(d + point + exponent + rest) == Parsed(Scaled(value, scale - e), rest)
  {
    hide ReadPoint, ReadExponent, Value;
    assert point + exponent + rest == point + (exponent + rest);
    NaturalReads(d, point + (exponent + rest));
    hide ReadNatural;
    assert d + point + exponent + rest == d + (point + (exponent + rest));
  }

  // The point stands among the digits.
  lemma {:induction false} InsideReads(d: Text, n: nat, rest: Text)
    requires 0 < n < |d| && AllDigits(d) && d[0] != ZERO && Delimited(rest)
    ensures ReadUnsigned(d[..n] + [POINT] + d[n..] + rest) == Parsed(Scaled(Value(d), |d| - n), rest)
  {
    hide ReadDigits, ReadUnsigned, ReadPoint, Value;
    var a, b := d[..n], d[n..];
    PointReads(b, rest, Value(a));
    ValueSplit(a, b);
    assert a + b == d && [] + rest == rest;
    UnsignedStep(a, [POINT] + b, [], rest, Value(d), |b|, 0);
    assert a + ([POINT] + b) + [] + rest == a + [POINT] + b + rest;
  }

  // The digits start after zeros.
  lemma {:induction false} BeforeReads(d: Text, n: nat, rest: Text)
    requires d != [] && AllDigits(d) && Delimited(rest)
    ensures ReadUnsigned([ZERO] + [POINT] + (Zeros(n) + d) + rest) == Parsed(Scaled(Value(d), n + |d|), rest)
  {
    hide ReadDigits, ReadUnsigned, ReadPoint;
    var b := Zeros(n) + d;
    ZerosValue(n, d);
    PointReads(b, rest, 0);
    DigitsValue(0);
    assert Digits(0) == [ZERO] && [] + rest == rest;
    hide Zeros, Value, Digits;
    UnsignedStep([ZERO], [POINT] + b, [], rest, Value(d), |b|, 0);
    assert [ZERO] + ([POINT] + b) + [] + rest == [ZERO] + [POINT] + b + rest;
  }

  // One digit, then the others, then the power of ten.
  lemma {:induction false} ScaledReads(d: Text, e: int, rest: Text)
    requires d != [] && AllDigits(d) && d[0] != ZERO && Delimited(rest)
    ensures ReadUnsigned(d[..1] + (if |d| == 1 then [] else [POINT] + d[1..]) + ExponentText(e) + rest)
         == Parsed(Scaled(Value(d), |d| - 1 - e), rest)
  {
    hide ReadDigits, ReadUnsigned, ReadPoint, ReadExponent, Digits, Value;
    var a, b := d[..1], d[1..];
    var tail := ExponentText(e) + rest;
    ExponentReads(e, rest);
    ValueSplit(a, b);
    assert a + b == d && tail[0] == 101;
    NoPoint(tail, Value(a));
    hide ExponentText;
    if |d| == 1 {
      assert a == d && [] + tail == tail && a + [] == a;
      UnsignedStep(a, [], ExponentText(e), rest, Value(d), 0, e);
    } else {
      PointReads(b, tail, Value(a));
      UnsignedStep(a, [POINT] + b, ExponentText(e), rest, Value(d), |b|, e);
    }
  }

  lemma {:induction false} PointTextReads(d: Text, scale: nat, rest: Text)
    requires d != [] && AllDigits(d) && d[0] != ZERO && scale >= 1 && Delimited(rest)
    ensures PointText(d, scale) != [] && IsDigit(PointText(d, scale)[0])
    ensures ReadUnsigned(PointText(d, scale) + rest) == Parsed(Scaled(Value(d), scale), rest)
  {
    hide ReadUnsigned, Value, ExponentText, Zeros;
    var n := |d| - scale;
    if 0 < n <= 21 {
      InsideReads(d, n, rest);
    } else if -6 < n <= 0 {
      BeforeReads(d, -n, rest);
    } else {
      ScaledReads(d, n - 1, rest);
    }
  }

  lemma {:induction false} FractionReads(f: Fraction, rest: Text)
    requires Delimited(rest)
    ensures ReadNumber(FractionText(f) + rest) == Parsed(Frac(f), rest)
    ensures FractionText(f) != [] && (FractionText(f)[0] == MINUS || IsDigit(FractionText(f)[0]))
  {
    hide ReadUnsigned, Value, PointText;
    var m := Magnitude(f.mantissa);
    var text := PointText(Digits(m), f.scale);
    DigitsRead(m, []);
    DigitsValue(m);
    hide Digits;
    PointTextReads(Digits(m), f.scale, rest);
    if f.mantissa < 0 {
      assert ([MINUS] + text + rest)[1..] == text + rest;
    } else {
      assert [] + text == text;
    }
  }

  lemma {:induction false} IntegerReads(n: nat, rest: Text)
    requires Delimited(rest)
    ensures ReadUnsigned(Digits(n) + rest) == Parsed(Scaled(n, 0), rest)
    ensures IsDigit(Digits(n)[0])
  {
    DigitsRead(n, []);
    DigitsValue(n);
    assert n == 0 ==> |Digits(n)| == 1;
    hide Digits, Value;
    NaturalReads(Digits(n), rest);
    hide ReadNatural;
  }

  lemma {:induction false} DecimalReads(n: int, rest: Text)
    requires Delimited(rest)
    ensures ReadNumber(Decimal(n) + rest) == Parsed(Num(n), rest)
    ensures Decimal(n) != [] && (Decimal(n)[0] == MINUS || IsDigit(Decimal(n)[0]))
  {
    hide ReadUnsigned, Digits;
    IntegerReads(if n < 0 then -n else n, rest);
    assert Power(0) == 1;
    if n < 0 { assert (Decimal(n) + rest)[1..] == Digits(-n) + rest; }
  }

  predicate IsAscii(s: Text) { forall i :: 0 <= i < |s| ==> s[i] < 128 }

  lemma {:induction false} DigitsAscii(n: nat)
    ensures IsAscii(Digits(n))
  {
    DigitsRead(n, []);
    hide Digits;
  }

  lemma {:induction false} DecimalAscii(n: int)
    ensures IsAscii(Decimal(n))
  {
    DigitsAscii(if n < 0 then -n else n);
    hide Digits;
  }

  lemma {:induction false} PointAscii(d: Text, scale: nat)
    requires d != [] && scale >= 1 && IsAscii(d)
    ensures IsAscii(PointText(d, scale))
  {
    hide Digits;
    var e := |d| - scale - 1;
    DigitsAscii(if e < 0 then -e else e);
  }

  lemma {:induction false} FractionAscii(f: Fraction)
    ensures IsAscii(FractionText(f))
  {
    hide Digits, PointText;
    DigitsAscii(Magnitude(f.mantissa));
    PointAscii(Digits(Magnitude(f.mantissa)), f.scale);
  }

  // ----- the letters themselves -----

  lemma {:induction false} AsciiIs(s: string, i: nat)
    requires i < |s| && s[i] as int < 0x1_0000
    ensures Ascii(s)[i] == s[i] as int
  {
  }

  // Hexadecimal digits are written in lower case.
  lemma {:induction false} HexDigitIs(d: nat)
    requires d < 16
    ensures HexDigit(d) == if d < 10 then '0' as int + d else 'a' as int + (d - 10)
  {
  }

  // How each unit is written: seven have a short escape, the other control characters and the lone
  // surrogates four hexadecimal digits that spell them, and everything else stands for itself.
  lemma {:induction false} EscapesAre(u: Unit)
    ensures u == '\"' as int ==> EscapeUnit(u) == ['\\' as int, '\"' as int]
    ensures u == '\\' as int ==> EscapeUnit(u) == ['\\' as int, '\\' as int]
    ensures u == 8 ==> EscapeUnit(u) == ['\\' as int, 'b' as int]
    ensures u == 9 ==> EscapeUnit(u) == ['\\' as int, 't' as int]
    ensures u == 10 ==> EscapeUnit(u) == ['\\' as int, 'n' as int]
    ensures u == 12 ==> EscapeUnit(u) == ['\\' as int, 'f' as int]
    ensures u == 13 ==> EscapeUnit(u) == ['\\' as int, 'r' as int]
    ensures 32 <= u && u != 34 && u != 92 && !(0xD800 <= u < 0xE000) ==> EscapeUnit(u) == [u]
  {
    hide Hex4;
  }

  lemma {:induction false} HexEscape(u: Unit) returns (a: nat, b: nat, c: nat, d: nat)
    requires (u < 32 && u !in {8, 9, 10, 12, 13}) || 0xD800 <= u < 0xE000
    ensures a < 16 && b < 16 && c < 16 && d < 16 && u == a * 4096 + b * 256 + c * 16 + d
    ensures EscapeUnit(u) == ['\\' as int, 'u' as int, HexDigit(a), HexDigit(b), HexDigit(c), HexDigit(d)]
  {
    hide HexDigit;
    a, b, c, d := u / 4096, u / 256 % 16, u / 16 % 16, u % 16;
    HexParts(u);
    assert ShortEscape(u) == [];
    assert EscapeUnit(u) == [BACKSLASH, 117] + Hex4(u);
  }

  // The point stands among the digits below 10^21, and before them down to 10^-6.
  lemma {:induction false} PointStands(d: Text, scale: nat)
    requires d != [] && scale >= 1
    ensures |d| - 21 <= scale < |d| ==>
      PointText(d, scale) == d[..|d| - scale] + ['.' as int] + d[|d| - scale..]
    ensures |d| <= scale <= |d| + 5 ==>
      PointText(d, scale) == ['0' as int, '.' as int] + seq(scale - |d|, _ => '0' as int) + d
  {
    hide ExponentText, Zeros;
    if |d| <= scale <= |d| + 5 { ZerosAre(scale - |d|); }
  }

  lemma {:induction false} ZerosAre(n: nat)
    ensures Zeros(n) == seq(n, _ => '0' as int)
  {
  }

  // Beyond, one digit, the others after a point, and the power of ten.
  lemma {:induction false} PowerStands(d: Text, scale: nat)
    requires d != [] && scale >= 1 && (scale < |d| - 21 || |d| + 5 < scale)
    ensures var power := if scale < |d| then ['e' as int, '+' as int] + Digits(|d| - scale - 1)
                         else ['e' as int, '-' as int] + Digits(scale - |d| + 1);
      PointText(d, scale) == [d[0]] + (if |d| == 1 then [] else ['.' as int] + d[1..]) + power
  {
    hide Digits, Zeros;
    assert d[..1] == [d[0]];
  }
}
