// UTF-8 between JavaScript text and bytes: Buffer.from(text, "utf8"), and a fatal TextDecoder.
module Utf8 {
  import opened Json

  type Byte = b: int | 0 <= b < 256
  type Bytes = seq<Byte>

  datatype Decoded = Decoded(text: Text) | Refused

  // Text with no lone surrogate.
  predicate WellFormed(text: Text) {
    if text == [] then true
    else if IsHigh(text[0]) then |text| >= 2 && IsLow(text[1]) && WellFormed(text[2..])
    else !IsLow(text[0]) && WellFormed(text[1..])
  }

  function Scalar(high: Unit, low: Unit): int
    requires IsHigh(high) && IsLow(low)
    ensures 0x1_0000 <= Scalar(high, low) < 0x11_0000
  {
    0x1_0000 + (high - 0xD800) * 0x400 + (low - 0xDC00)
  }

  function EncodeUnit(u: Unit): (b: Bytes)
    ensures 1 <= |b| <= 3
  {
    if u < 0x80 then [u]
    else if u < 0x800 then [0xC0 + u / 64, 0x80 + u % 64]
    else [0xE0 + u / 4096, 0x80 + u / 64 % 64, 0x80 + u % 64]
  }

  function EncodePair(c: int): (b: Bytes)
    requires 0x1_0000 <= c < 0x11_0000
    ensures |b| == 4
  {
    [0xF0 + c / 262144, 0x80 + c / 4096 % 64, 0x80 + c / 64 % 64, 0x80 + c % 64]
  }

  // A lone surrogate becomes U+FFFD.
  function Lone(u: Unit): Unit { if IsHigh(u) || IsLow(u) then 0xFFFD else u }

  function Encode(text: Text): Bytes {
    if text == [] then []
    else if |text| >= 2 && IsHigh(text[0]) && IsLow(text[1])
    then EncodePair(Scalar(text[0], text[1])) + Encode(text[2..])
    else EncodeUnit(Lone(text[0])) + Encode(text[1..])
  }

  lemma {:induction false} EncodeNothing()
    ensures Encode([]) == []
  {
  }

  lemma {:induction false} EncodeOne(u: Unit, rest: Text)
    requires !(IsHigh(u) && rest != [] && IsLow(rest[0]))
    ensures Encode([u] + rest) == EncodeUnit(Lone(u)) + Encode(rest)
  {
    assert ([u] + rest)[1..] == rest;
  }

  lemma {:induction false} EncodeTwo(high: Unit, low: Unit, rest: Text)
    requires IsHigh(high) && IsLow(low)
    ensures Encode([high, low] + rest) == EncodePair(Scalar(high, low)) + Encode(rest)
  {
    assert ([high, low] + rest)[2..] == rest;
  }

  // Two texts encode one after the other, unless a pair of surrogates straddles them.
  lemma {:induction false} EncodeConcat(a: Text, b: Text)
    requires b == [] || !IsLow(b[0])
    ensures Encode(a + b) == Encode(a) + Encode(b)
    decreases |a|
  {
    hide EncodeUnit, EncodePair, Scalar, Encode;
    EncodeNothing();
    if a == [] {
      assert a + b == b;
    } else if |a| >= 2 && IsHigh(a[0]) && IsLow(a[1]) {
      EncodeConcat(a[2..], b);
      EncodeTwo(a[0], a[1], a[2..]);
      EncodeTwo(a[0], a[1], a[2..] + b);
      assert a == [a[0], a[1]] + a[2..] && a + b == [a[0], a[1]] + (a[2..] + b);
    } else {
      EncodeConcat(a[1..], b);
      EncodeOne(a[0], a[1..]);
      EncodeOne(a[0], a[1..] + b);
      assert a == [a[0]] + a[1..] && a + b == [a[0]] + (a[1..] + b);
    }
  }

  // Joined, they never take more bytes than apart.
  lemma {:induction false} EncodeJoins(a: Text, b: Text)
    ensures |Encode(a + b)| <= |Encode(a)| + |Encode(b)|
    decreases |a|
  {
    hide EncodeUnit, EncodePair, Scalar, Encode;
    EncodeNothing();
    if b == [] || !IsLow(b[0]) {
      EncodeConcat(a, b);
    } else if a == [] {
      assert a + b == b;
    } else if |a| >= 2 && IsHigh(a[0]) && IsLow(a[1]) {
      EncodeJoins(a[2..], b);
      EncodeTwo(a[0], a[1], a[2..]);
      EncodeTwo(a[0], a[1], a[2..] + b);
      assert a == [a[0], a[1]] + a[2..] && a + b == [a[0], a[1]] + (a[2..] + b);
    } else if |a| == 1 && IsHigh(a[0]) {
      EncodeOne(a[0], []);
      EncodeOne(b[0], b[1..]);
      EncodeTwo(a[0], b[0], b[1..]);
      assert a == [a[0]] + [] && b == [b[0]] + b[1..] && a + b == [a[0], b[0]] + b[1..];
      EncodeSizes(b[0]);
    } else {
      EncodeJoins(a[1..], b);
      EncodeOne(a[0], a[1..]);
      EncodeOne(a[0], a[1..] + b);
      assert a == [a[0]] + a[1..] && a + b == [a[0]] + (a[1..] + b);
    }
  }

  // A lone surrogate takes three bytes, so two of them more than the four of a pair.
  lemma {:induction false} EncodeSizes(u: Unit)
    requires IsHigh(u) || IsLow(u)
    ensures |EncodeUnit(Lone(u))| == 3
  {
  }

  predicate Continues(b: Byte) { 0x80 <= b < 0xC0 }

  function UnitsOf(c: int): Text
    requires 0x1_0000 <= c < 0x11_0000
  {
    [0xD800 + (c - 0x1_0000) / 0x400, 0xDC00 + (c - 0x1_0000) % 0x400]
  }

  // The length of the well-formed sequence that starts here, 0 if there is none.
  function Width(b: Bytes): int
    ensures 0 <= Width(b) <= 4 && Width(b) <= |b|
  {
    if b == [] then 0
    else if b[0] < 0x80 then 1
    else if 0xC2 <= b[0] < 0xE0 then (if |b| >= 2 && Continues(b[1]) then 2 else 0)
    else if 0xE0 <= b[0] < 0xF0 then
      if |b| >= 3 && Continues(b[1]) && Continues(b[2])
         && (b[0] == 0xE0 ==> b[1] >= 0xA0) && (b[0] == 0xED ==> b[1] < 0xA0)
      then 3 else 0
    else if 0xF0 <= b[0] < 0xF5 then
      if |b| >= 4 && Continues(b[1]) && Continues(b[2]) && Continues(b[3])
         && (b[0] == 0xF0 ==> b[1] >= 0x90) && (b[0] == 0xF4 ==> b[1] < 0x90)
      then 4 else 0
    else 0
  }

  function Two(a: int, b: int): int { (a - 0xC0) * 64 + (b - 0x80) }
  function Three(a: int, b: int, c: int): int { (a - 0xE0) * 4096 + (b - 0x80) * 64 + (c - 0x80) }
  function Four(a: int, b: int, c: int, d: int): int {
    (a - 0xF0) * 262144 + (b - 0x80) * 4096 + (c - 0x80) * 64 + (d - 0x80)
  }

  function One(b: Bytes): Text
    requires Width(b) != 0
  {
    if Width(b) == 1 then [b[0]]
    else if Width(b) == 2 then [Two(b[0], b[1])]
    else if Width(b) == 3 then [Three(b[0], b[1], b[2])]
    else UnitsOf(Four(b[0], b[1], b[2], b[3]))
  }

  function DecodeAll(b: Bytes): Decoded
    decreases |b|
  {
    if b == [] then Decoded([])
    else if Width(b) == 0 then Refused
    else
      var more := DecodeAll(b[Width(b)..]);
      if more.Refused? then Refused else Decoded(One(b) + more.text)
  }

  const BOM: Unit := 0xFEFF

  // new TextDecoder("utf-8", { fatal: true }): malformed bytes throw, a leading BOM is dropped.
  function Decode(b: Bytes): Decoded {
    var all := DecodeAll(b);
    if all.Decoded? && all.text != [] && all.text[0] == BOM then Decoded(all.text[1..]) else all
  }

  // ----- decoding undoes encoding -----

  lemma {:induction false} UnitDecodes(u: Unit, rest: Bytes)
    requires !IsHigh(u) && !IsLow(u)
    ensures Width(EncodeUnit(u) + rest) == |EncodeUnit(u)| && One(EncodeUnit(u) + rest) == [u]
  {
    var b := EncodeUnit(u) + rest;
    if u < 0x80 {
    } else if u < 0x800 {
      assert b[0] == 0xC0 + u / 64 && b[1] == 0x80 + u % 64;
    } else {
      assert b[0] == 0xE0 + u / 4096 && b[1] == 0x80 + u / 64 % 64 && b[2] == 0x80 + u % 64;
    }
  }

  lemma {:induction false} FourParts(c: int)
    requires 0x1_0000 <= c < 0x11_0000
    ensures Four(0xF0 + c / 262144, 0x80 + c / 4096 % 64, 0x80 + c / 64 % 64, 0x80 + c % 64) == c
    ensures c / 262144 == 0 ==> c / 4096 % 64 >= 16
    ensures c / 262144 == 4 ==> c / 4096 % 64 < 16
    ensures c / 262144 <= 4
  {
    var x := c / 64;
    var y := x / 64;
    assert c == 64 * x + c % 64 && x == 64 * y + x % 64 && y == 64 * (y / 64) + y % 64;
    assert c / 4096 == y && c / 262144 == y / 64;
  }

  lemma {:induction false} PairScalar(high: Unit, low: Unit)
    requires IsHigh(high) && IsLow(low)
    ensures UnitsOf(Scalar(high, low)) == [high, low]
  {
  }

  lemma {:induction false} PairDecodes(high: Unit, low: Unit, rest: Bytes)
    requires IsHigh(high) && IsLow(low)
    ensures Width(EncodePair(Scalar(high, low)) + rest) == 4 && One(EncodePair(Scalar(high, low)) + rest) == [high, low]
  {
    var c := Scalar(high, low);
    var b := EncodePair(c) + rest;
    FourParts(c);
    PairScalar(high, low);
    hide Scalar, UnitsOf, Four;
    assert b[0] == 0xF0 + c / 262144 && b[1] == 0x80 + c / 4096 % 64 && b[2] == 0x80 + c / 64 % 64
      && b[3] == 0x80 + c % 64;
  }

  lemma {:induction false} DecodeStep(first: Bytes, rest: Bytes, units: Text)
    requires first != [] && Width(first + rest) == |first| && One(first + rest) == units
    ensures var more := DecodeAll(rest);
      DecodeAll(first + rest) == if more.Refused? then Refused else Decoded(units + more.text)
  {
    assert (first + rest)[|first|..] == rest;
  }

  lemma {:induction false} DecodeEncode(text: Text)
    requires WellFormed(text)
    ensures DecodeAll(Encode(text)) == Decoded(text)
    decreases |text|
  {
    hide Width, One, EncodeUnit, EncodePair, Scalar;
    if text == [] {
    } else if IsHigh(text[0]) {
      DecodeEncode(text[2..]);
      PairDecodes(text[0], text[1], Encode(text[2..]));
      DecodeStep(EncodePair(Scalar(text[0], text[1])), Encode(text[2..]), text[..2]);
    } else {
      DecodeEncode(text[1..]);
      UnitDecodes(text[0], Encode(text[1..]));
      DecodeStep(EncodeUnit(text[0]), Encode(text[1..]), text[..1]);
    }
  }

  // ----- the bytes (section 3 of RFC 3629) -----

  // How many bytes a unit takes, in which ranges, and that their low bits spell it.
  lemma {:induction false} UnitBytes(u: Unit)
    ensures var e: seq<int> := EncodeUnit(u);
      && (u < 0x80 ==> e == [u])
      && (0x80 <= u < 0x800 ==>
            |e| == 2 && 0xC2 <= e[0] < 0xE0 && 0x80 <= e[1] < 0xC0 && u == e[0] % 32 * 64 + e[1] % 64)
      && (0x800 <= u ==>
            && |e| == 3 && 0xE0 <= e[0] < 0xF0 && 0x80 <= e[1] < 0xC0 && 0x80 <= e[2] < 0xC0
            && u == e[0] % 16 * 4096 + e[1] % 64 * 64 + e[2] % 64)
    ensures IsHigh(u) || IsLow(u) ==> EncodeUnit(Lone(u)) == [0xEF, 0xBF, 0xBD]
    ensures !IsHigh(u) && !IsLow(u) ==> Lone(u) == u
  {
    if 0x80 <= u < 0x800 {
      TwoLowBits(u / 64, u % 64);
    } else if 0x800 <= u {
      ThreeLowBits(u / 4096, u / 64 % 64, u % 64);
      assert u == u / 4096 * 4096 + u / 64 % 64 * 64 + u % 64;
    }
  }

  lemma {:induction false} TwoLowBits(a: int, b: int)
    requires 2 <= a < 32 && 0 <= b < 64
    ensures 0xC2 <= 0xC0 + a < 0xE0 && (0xC0 + a) % 32 == a && (0x80 + b) % 64 == b
  {
  }

  lemma {:induction false} ThreeLowBits(a: int, b: int, c: int)
    requires 0 <= a < 16 && 0 <= b < 64 && 0 <= c < 64
    ensures (0xE0 + a) % 16 == a && (0x80 + b) % 64 == b && (0x80 + c) % 64 == c
  {
  }

  lemma {:induction false} PairBytes(high: Unit, low: Unit)
    requires 0xD800 <= high < 0xDC00 && 0xDC00 <= low < 0xE000
    ensures var e: seq<int> := EncodePair(Scalar(high, low));
      && 0xF0 <= e[0] < 0xF5 && 0x80 <= e[1] < 0xC0 && 0x80 <= e[2] < 0xC0 && 0x80 <= e[3] < 0xC0
      && e[0] % 8 * 262144 + e[1] % 64 * 4096 + e[2] % 64 * 64 + e[3] % 64
         == 0x1_0000 + high % 1024 * 1024 + low % 1024
  {
    var c := Scalar(high, low);
    assert c == 0x1_0000 + high % 1024 * 1024 + low % 1024;
    hide Scalar;
    FourParts(c);
    LowBits(c / 262144, c / 4096 % 64, c / 64 % 64, c % 64);
  }

  lemma {:induction false} LowBits(a: int, b: int, c: int, d: int)
    requires 0 <= a < 5 && 0 <= b < 64 && 0 <= c < 64 && 0 <= d < 64
    ensures (0xF0 + a) % 8 == a && (0x80 + b) % 64 == b && (0x80 + c) % 64 == c && (0x80 + d) % 64 == d
  {
  }

  // ----- the decoder accepts nothing else -----

  lemma {:induction false} TwoBack(a: Byte, b: Byte)
    requires 0xC2 <= a < 0xE0 && Continues(b)
    ensures 0x80 <= Two(a, b) < 0x800 && EncodeUnit(Two(a, b)) == [a, b]
  {
  }

  lemma {:induction false} ThreeBack(a: Byte, b: Byte, c: Byte)
    requires 0xE0 <= a < 0xF0 && Continues(b) && Continues(c)
    requires (a == 0xE0 ==> b >= 0xA0) && (a == 0xED ==> b < 0xA0)
    ensures 0x800 <= Three(a, b, c) < 0x1_0000 && !IsHigh(Three(a, b, c)) && !IsLow(Three(a, b, c))
    ensures EncodeUnit(Three(a, b, c)) == [a, b, c]
  {
    var u := Three(a, b, c);
    var m: int := (a - 0xE0) * 64 + (b - 0x80);
    assert u == m * 64 + (c - 0x80) && u / 64 == m && u % 64 == c - 0x80;
    assert m / 64 == a - 0xE0 && m % 64 == b - 0x80;
  }

  lemma {:induction false} FourBack(a: Byte, b: Byte, c: Byte, d: Byte)
    requires 0xF0 <= a < 0xF5 && Continues(b) && Continues(c) && Continues(d)
    requires (a == 0xF0 ==> b >= 0x90) && (a == 0xF4 ==> b < 0x90)
    ensures 0x1_0000 <= Four(a, b, c, d) < 0x11_0000 && EncodePair(Four(a, b, c, d)) == [a, b, c, d]
  {
    var u := Four(a, b, c, d);
    var m: int := (a - 0xF0) * 4096 + (b - 0x80) * 64 + (c - 0x80);
    var n: int := (a - 0xF0) * 64 + (b - 0x80);
    assert u == m * 64 + (d - 0x80) && u / 64 == m && u % 64 == d - 0x80;
    assert m == n * 64 + (c - 0x80) && m / 64 == n && m % 64 == c - 0x80;
    assert n / 64 == a - 0xF0 && n % 64 == b - 0x80;
    assert u / 4096 == n && u / 262144 == a - 0xF0;
  }

  lemma {:induction false} UnitsScalar(c: int)
    requires 0x1_0000 <= c < 0x11_0000
    ensures var p := UnitsOf(c); |p| == 2 && IsHigh(p[0]) && IsLow(p[1]) && Scalar(p[0], p[1]) == c
  {
  }

  // The units of one accepted sequence encode to its bytes.
  lemma {:induction false} OneBack(b: Bytes, rest: Text)
    requires Width(b) != 0
    ensures Encode(One(b) + rest) == b[..Width(b)] + Encode(rest)
    ensures WellFormed(rest) ==> WellFormed(One(b) + rest)
  {
    hide EncodeUnit, EncodePair, Scalar, UnitsOf, Encode, Two, Three, Four;
    if Width(b) == 4 {
      var c := Four(b[0], b[1], b[2], b[3]);
      FourBack(b[0], b[1], b[2], b[3]);
      UnitsScalar(c);
      EncodeTwo(UnitsOf(c)[0], UnitsOf(c)[1], rest);
      assert One(b) == [UnitsOf(c)[0], UnitsOf(c)[1]] && b[..4] == [b[0], b[1], b[2], b[3]];
      assert (One(b) + rest)[2..] == rest;
    } else {
      var u := One(b)[0];
      if Width(b) == 2 { TwoBack(b[0], b[1]); }
      if Width(b) == 3 { ThreeBack(b[0], b[1], b[2]); }
      UnitBytes(u);
      EncodeOne(u, rest);
      assert One(b) == [u] && (One(b) + rest)[1..] == rest;
      assert b[..Width(b)] == EncodeUnit(u);
    }
  }

  lemma {:induction false} AcceptedEncodes(b: Bytes)
    requires DecodeAll(b).Decoded?
    ensures WellFormed(DecodeAll(b).text) && Encode(DecodeAll(b).text) == b
    decreases |b|
  {
    hide Width, One, Encode, WellFormed;
    if b == [] {
      EncodeNothing();
      NothingWellFormed();
    } else {
      var n := Width(b);
      AcceptedEncodes(b[n..]);
      OneBack(b, DecodeAll(b[n..]).text);
      assert b[..n] + b[n..] == b;
    }
  }

  lemma {:induction false} NothingWellFormed()
    ensures WellFormed([])
  {
  }

  // The fatal decoder accepts exactly the encodings of texts without a lone surrogate, and returns
  // those texts.
  lemma {:induction false} DecodeIsExact(b: Bytes, text: Text)
    ensures DecodeAll(b) == Decoded(text) <==> WellFormed(text) && Encode(text) == b
  {
    hide WellFormed, Encode, DecodeAll;
    if WellFormed(text) { DecodeEncode(text); }
    if DecodeAll(b) == Decoded(text) { AcceptedEncodes(b); }
  }

  // Through the decoder as the program calls it, a byte-order mark at the start is lost and nothing else.
  lemma {:induction false} DecodeDropsMark(text: Text)
    requires WellFormed(text)
    ensures Decode(Encode(text)) == Decoded(if text != [] && text[0] == 0xFEFF then text[1..] else text)
  {
    hide WellFormed, Encode, DecodeAll;
    DecodeEncode(text);
  }
}
