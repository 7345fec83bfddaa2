// Unpadded base64url (section 5 of RFC 4648), as Node's Buffer writes and leniently reads
// it, and the strict decoder of envelope.ts built on top.
module Base64Url {
  import opened Json
  import opened Utf8

  datatype Strict = Bytes(bytes: Bytes) | NotCanonical

  function Letter(d: int): Unit
    requires 0 <= d < 64
  {
    if d < 26 then 65 + d
    else if d < 52 then 71 + d
    else if d < 62 then d - 4
    else if d == 62 then 45
    else 95
  }

  // The six bits of a letter, -1 outside the alphabet.
  function Sextet(u: Unit): (d: int)
    ensures -1 <= d < 64
  {
    if 65 <= u < 91 then u - 65
    else if 97 <= u < 123 then u - 71
    else if 48 <= u < 58 then u + 4
    else if u == 45 then 62
    else if u == 95 then 63
    else -1
  }

  function Quad(a: Byte, b: Byte, c: Byte): (s: Text)
    ensures |s| == 4
  {
    [Letter(a / 4), Letter(a % 4 * 16 + b / 16), Letter(b % 16 * 4 + c / 64), Letter(c % 64)]
  }

  function Encode(b: Bytes): Text {
    if |b| == 0 then []
    else if |b| == 1 then [Letter(b[0] / 4), Letter(b[0] % 4 * 16)]
    else if |b| == 2 then [Letter(b[0] / 4), Letter(b[0] % 4 * 16 + b[1] / 16), Letter(b[1] % 16 * 4)]
    else Quad(b[0], b[1], b[2]) + Encode(b[3..])
  }

  // /^[A-Za-z0-9_-]+$/ and length % 4 !== 1
  predicate InAlphabet(s: Text) { forall i :: 0 <= i < |s| ==> Sextet(s[i]) >= 0 }

  predicate Shaped(s: Text) { s != [] && InAlphabet(s) && |s| % 4 != 1 }

  function FirstByte(a: int, b: int): Byte
    requires 0 <= a < 64 && 0 <= b < 64
  {
    a * 4 + b / 16
  }

  function SecondByte(b: int, c: int): Byte
    requires 0 <= b < 64 && 0 <= c < 64
  {
    b % 16 * 16 + c / 4
  }

  function ThirdByte(c: int, d: int): Byte
    requires 0 <= c < 64 && 0 <= d < 64
  {
    c % 4 * 64 + d
  }

  // Buffer.from(s, "base64url") on letters: trailing bits that fill no byte are dropped.
  function Lenient(s: Text): Bytes
    requires InAlphabet(s)
  {
    if |s| < 2 then []
    else if |s| == 2 then [FirstByte(Sextet(s[0]), Sextet(s[1]))]
    else if |s| == 3 then [FirstByte(Sextet(s[0]), Sextet(s[1])), SecondByte(Sextet(s[1]), Sextet(s[2]))]
    else
      [FirstByte(Sextet(s[0]), Sextet(s[1])), SecondByte(Sextet(s[1]), Sextet(s[2])),
       ThirdByte(Sextet(s[2]), Sextet(s[3]))]
      + Lenient(s[4..])
  }

  // decodeBase64Url
  function Decode(s: Text): Strict {
    if !Shaped(s) then NotCanonical
    else
      var decoded := Lenient(s);
      if decoded == [] || Encode(decoded) != s then NotCanonical else Bytes(decoded)
  }

  lemma {:induction false} LetterSextet(d: int)
    requires 0 <= d < 64
    ensures Sextet(Letter(d)) == d
  {
  }

  lemma {:induction false} OneByteBack(a: Byte)
    ensures FirstByte(a / 4, a % 4 * 16) == a
  {
  }

  lemma {:induction false} TwoBytesBack(a: Byte, b: Byte)
    ensures FirstByte(a / 4, a % 4 * 16 + b / 16) == a && SecondByte(a % 4 * 16 + b / 16, b % 16 * 4) == b
  {
    var m := a % 4 * 16 + b / 16;
    assert m / 16 == a % 4 && m % 16 == b / 16;
  }

  lemma {:induction false} ThreeBytesBack(a: Byte, b: Byte, c: Byte)
    ensures FirstByte(a / 4, a % 4 * 16 + b / 16) == a
    ensures SecondByte(a % 4 * 16 + b / 16, b % 16 * 4 + c / 64) == b
    ensures ThirdByte(b % 16 * 4 + c / 64, c % 64) == c
  {
    var m, n := a % 4 * 16 + b / 16, b % 16 * 4 + c / 64;
    assert m / 16 == a % 4 && m % 16 == b / 16;
    assert n / 4 == b % 16 && n % 4 == c / 64;
  }

  lemma {:induction false} LettersIn(s: Text, digits: seq<int>)
    requires |s| == |digits| && forall i :: 0 <= i < |s| ==> 0 <= digits[i] < 64 && s[i] == Letter(digits[i])
    ensures InAlphabet(s) && forall i :: 0 <= i < |s| ==> Sextet(s[i]) == digits[i]
  {
    forall i | 0 <= i < |s| ensures Sextet(s[i]) == digits[i] { LetterSextet(digits[i]); }
  }

  lemma {:induction false} LastOneReads(a: Byte)
    ensures InAlphabet(Encode([a])) && Lenient(Encode([a])) == [a]
  {
    LettersIn(Encode([a]), [a / 4, a % 4 * 16]);
    OneByteBack(a);
    hide Letter, Sextet, FirstByte;
  }

  lemma {:induction false} LastTwoRead(a: Byte, b: Byte)
    ensures InAlphabet(Encode([a, b])) && Lenient(Encode([a, b])) == [a, b]
  {
    LettersIn(Encode([a, b]), [a / 4, a % 4 * 16 + b / 16, b % 16 * 4]);
    TwoBytesBack(a, b);
    hide Letter, Sextet, FirstByte, SecondByte;
  }

  lemma {:induction false} QuadReads(a: Byte, b: Byte, c: Byte, rest: Text)
    requires InAlphabet(rest)
    ensures InAlphabet(Quad(a, b, c) + rest) && Lenient(Quad(a, b, c) + rest) == [a, b, c] + Lenient(rest)
  {
    LettersIn(Quad(a, b, c), [a / 4, a % 4 * 16 + b / 16, b % 16 * 4 + c / 64, c % 64]);
    ThreeBytesBack(a, b, c);
    hide Letter, Sextet, FirstByte, SecondByte, ThirdByte;
    var s := Quad(a, b, c) + rest;
    assert s[4..] == rest;
    assert forall i :: 4 <= i < |s| ==> s[i] == rest[i - 4];
    assert forall i :: 0 <= i < 4 ==> s[i] == Quad(a, b, c)[i];
  }

  // What Encode writes has the shape the decoder asks for, and reads back.
  lemma {:induction false} EncodeReads(b: Bytes)
    ensures InAlphabet(Encode(b)) && |Encode(b)| % 4 != 1 && (Encode(b) == [] <==> b == [])
    ensures Lenient(Encode(b)) == b
    decreases |b|
  {
    hide Letter, Sextet, Quad, Lenient, InAlphabet;
    if b == [] {
      EmptyReads();
    } else if |b| == 1 {
      LastOneReads(b[0]);
      assert b == [b[0]];
    } else if |b| == 2 {
      LastTwoRead(b[0], b[1]);
      assert b == [b[0], b[1]];
    } else {
      EncodeReads(b[3..]);
      QuadReads(b[0], b[1], b[2], Encode(b[3..]));
      assert b == [b[0], b[1], b[2]] + b[3..];
    }
  }

  // Four letters for three bytes, and no padding.
  function EncodedLength(bytes: nat): nat { (4 * bytes + 2) / 3 }

  lemma {:induction false} EncodeLength(b: Bytes)
    ensures |Encode(b)| == EncodedLength(|b|)
    decreases |b|
  {
    hide Letter;
    if |b| > 2 { EncodeLength(b[3..]); }
  }

  lemma {:induction false} EmptyReads()
    ensures InAlphabet([]) && Lenient([]) == []
  {
  }

  // The strict decoder accepts exactly the texts Encode writes for some bytes, and returns those bytes.
  lemma {:induction false} DecodeIsExact(s: Text, b: Bytes)
    ensures Decode(s) == Bytes(b) <==> b != [] && s == Encode(b)
  {
    EncodeReads(b);
  }

  // ----- the alphabet and the bits (section 5 of RFC 4648) -----

  // A to Z, a to z, 0 to 9, then "-" and "_" spell the numbers 0 to 63, each alone, and no other
  // letter is one.
  lemma {:induction false} LettersAre(d: nat, u: Unit)
    requires d < 64
    ensures d < 26 ==> Letter(d) == 'A' as int + d
    ensures 26 <= d < 52 ==> Letter(d) == 'a' as int + (d - 26)
    ensures 52 <= d < 62 ==> Letter(d) == '0' as int + (d - 52)
    ensures d == 62 ==> Letter(d) == '-' as int
    ensures d == 63 ==> Letter(d) == '_' as int
    ensures Sextet(u) == d <==> u == Letter(d)
    ensures Sextet(u) == -1 || u == Letter(Sextet(u))
  {
    LetterSextet(d);
  }

  // The number some digits spell, most significant first.
  function Number(digits: seq<int>, base: int): int {
    if digits == [] then 0 else Number(digits[..|digits| - 1], base) * base + digits[|digits| - 1]
  }

  lemma {:induction false} NumberSnoc(digits: seq<int>, d: int, base: int)
    ensures Number(digits + [d], base) == Number(digits, base) * base + d
  {
    assert (digits + [d])[..|digits|] == digits;
  }

  lemma {:induction false} SmallNumbers(a: int, b: int, c: int, d: int, base: int)
    ensures Number([a], base) == a && Number([a, b], base) == a * base + b
    ensures Number([a, b, c], base) == (a * base + b) * base + c
    ensures Number([a, b, c, d], base) == ((a * base + b) * base + c) * base + d
  {
    NumberSnoc([], a, base);
    NumberSnoc([a], b, base);
    NumberSnoc([a, b], c, base);
    NumberSnoc([a, b, c], d, base);
    assert [] + [a] == [a] && [a] + [b] == [a, b] && [a, b] + [c] == [a, b, c] && [a, b, c] + [d] == [a, b, c, d];
  }

  function Sextets(s: Text): (d: seq<int>)
    ensures |d| == |s|
  {
    seq(|s|, i requires 0 <= i < |s| => Sextet(s[i]))
  }

  // Three bytes and the four letters that stand for them spell the same number, most significant
  // first; of fewer bytes, two and four zero bits follow them.
  ghost predicate SameBits(bytes: Bytes, letters: Text) {
    && |letters| == |bytes| + 1
    && Number(bytes, 256) * (if |bytes| == 3 then 1 else if |bytes| == 2 then 4 else 16) == Number(Sextets(letters), 64)
  }

  // The bytes go three by three into four letters each, and the last one or two into one letter more.
  lemma {:induction false} EncodeSpells(b: Bytes, i: nat)
    requires 3 * i < |b|
    ensures var n := if |b| - 3 * i < 3 then |b| - 3 * i else 3;
      4 * i + n + 1 <= |Encode(b)| && SameBits(b[3 * i..3 * i + n], Encode(b)[4 * i..4 * i + n + 1])
    decreases i
  {
    hide SameBits, Letter, Sextet, Quad;
    var n := if |b| - 3 * i < 3 then |b| - 3 * i else 3;
    if i > 0 {
      EncodeSpells(b[3..], i - 1);
      var s, t := Encode(b), Encode(b[3..]);
      assert s == Quad(b[0], b[1], b[2]) + t;
      assert s[4 * i..4 * i + n + 1] == t[4 * (i - 1)..4 * (i - 1) + n + 1];
      assert b[3 * i..3 * i + n] == b[3..][3 * (i - 1)..3 * (i - 1) + n];
    } else if |b| >= 3 {
      QuadSpells(b[0], b[1], b[2]);
      assert b[..3] == [b[0], b[1], b[2]] && Encode(b)[..4] == Quad(b[0], b[1], b[2]);
    } else {
      TailSpells(b);
      assert b[..n] == b && Encode(b)[..n + 1] == Encode(b);
    }
  }

  lemma {:induction false} QuadSpells(a: Byte, b: Byte, c: Byte)
    ensures SameBits([a, b, c], Quad(a, b, c))
  {
    var p, q: int := a % 4 * 16 + b / 16, b % 16 * 4 + c / 64;
    LetterSextet(a / 4);
    LetterSextet(p);
    LetterSextet(q);
    LetterSextet(c % 64);
    hide Letter, Sextet;
    SmallNumbers(a, b, c, 0, 256);
    SmallNumbers(a / 4, p, q, c % 64, 64);
    assert Sextets(Quad(a, b, c)) == [a / 4, p, q, c % 64];
  }

  lemma {:induction false} TailSpells(b: Bytes)
    requires 1 <= |b| <= 2
    ensures |Encode(b)| == |b| + 1 && SameBits(b, Encode(b))
  {
    var a: int := b[0];
    var p: int := if |b| == 2 then a % 4 * 16 + b[1] / 16 else a % 4 * 16;
    LetterSextet(a / 4);
    LetterSextet(p);
    if |b| == 2 { LetterSextet(b[1] % 16 * 4); }
    hide Letter, Sextet;
    SmallNumbers(a, if |b| == 2 then b[1] else 0, 0, 0, 256);
    SmallNumbers(a / 4, p, if |b| == 2 then b[1] % 16 * 4 else 0, 0, 64);
    if |b| == 1 {
      assert b == [b[0]] && Sextets(Encode(b)) == [a / 4, p];
    } else {
      assert b == [b[0], b[1]] && Sextets(Encode(b)) == [a / 4, p, b[1] % 16 * 4];
    }
  }
}
