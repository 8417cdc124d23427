/** The MEGA helper library: big-endian 32-bit word packing, the extended
    Euclidean algorithm and the modular inverse built on it, URL-safe base64
    (section 5 of RFC 4648) over a standard base64 coder (section 4 of RFC
    4648), the chunk schedule of a download, the attribute prefix check, the
    classification of API replies, and the key and MAC arithmetic of a
    download. AES, RSA and the HTTP transport are not part of this model. */
module Mega {
  import opened Common
  import opened Strings
  import opened Numbers

  type Byte = x: int | 0 <= x < 0x100
  type Word = x: int | 0 <= x < 0x1_0000_0000

  // ---------------------------------------------------------------------
  // big-endian words (`struct` format '>I')
  // ---------------------------------------------------------------------

  function WordBytes(w: Word): seq<Byte> {
    [w / 0x100_0000, w / 0x1_0000 % 0x100, w / 0x100 % 0x100, w % 0x100]
  }

  function BytesWord(b: seq<Byte>): Word
    requires |b| == 4
  {
    b[0] as int * 0x100_0000 + b[1] as int * 0x1_0000 + b[2] as int * 0x100 + b[3] as int
  }

  lemma DivUnique(w: int, d: int, q: int, r: int)
    requires 0 < d && 0 <= r < d && w == d * q + r
    ensures w / d == q && w % d == r
  {
    var k := q - w / d;
    assert d * k == w % d - r;
    assert k >= 1 ==> d * k >= d * 1;
    assert k <= -1 ==> d * -k >= d * 1;
  }

  /** The four bytes of a word are its base-256 digits. */
  lemma Digits4(w: int, b0: int, b1: int, b2: int, b3: int)
    requires 0 <= b0 < 0x100 && 0 <= b1 < 0x100 && 0 <= b2 < 0x100 && 0 <= b3 < 0x100
    requires w == b0 * 0x100_0000 + b1 * 0x1_0000 + b2 * 0x100 + b3
    ensures w / 0x100_0000 == b0 && w / 0x1_0000 % 0x100 == b1 && w / 0x100 % 0x100 == b2 && w % 0x100 == b3
  {
    DivUnique(w, 0x100_0000, b0, b1 * 0x1_0000 + b2 * 0x100 + b3);
    DivUnique(w, 0x1_0000, b0 * 0x100 + b1, b2 * 0x100 + b3);
    DivUnique(b0 * 0x100 + b1, 0x100, b0, b1);
    DivUnique(w, 0x100, b0 * 0x1_0000 + b1 * 0x100 + b2, b3);
    DivUnique(b0 * 0x1_0000 + b1 * 0x100 + b2, 0x100, b0 * 0x100 + b1, b2);
  }

  lemma WordBytesWord(w: Word)
    ensures BytesWord(WordBytes(w)) == w
  {
    var b3, t1 := w % 0x100, w / 0x100;
    var b2, t2 := t1 % 0x100, t1 / 0x100;
    var b1, b0 := t2 % 0x100, t2 / 0x100;
    assert w == b0 * 0x100_0000 + b1 * 0x1_0000 + b2 * 0x100 + b3;
    Digits4(w, b0, b1, b2, b3);
  }

  lemma BytesWordBytes(b: seq<Byte>)
    requires |b| == 4
    ensures WordBytes(BytesWord(b)) == b
  {
    Digits4(BytesWord(b), b[0], b[1], b[2], b[3]);
  }

  /** `a32_to_str`: every word as four big-endian bytes. */
  function A32ToStr(a: seq<Word>): (b: seq<Byte>)
    ensures |b| == 4 * |a|
  {
    if |a| == 0 then [] else WordBytes(a[0]) + A32ToStr(a[1..])
  }

  /** `unpack('>%dI')` of a byte string whose length is a multiple of four. */
  function Unpack(b: seq<Byte>): (a: seq<Word>)
    requires |b| % 4 == 0
    ensures |a| == |b| / 4
  {
    if |b| == 0 then [] else [BytesWord(b[..4])] + Unpack(b[4..])
  }

  /** The number of zero bytes `str_to_a32` appends. */
  function PadLength(n: nat): nat {
    if n % 4 == 0 then 0 else 4 - n % 4
  }

  function Zeros(n: nat): seq<Byte> {
    seq(n, _ => 0)
  }

  /** `str_to_a32`: right-pad with zero bytes to a multiple of four, then read
      big-endian words; ceil(len / 4) words come out. */
  function StrToA32(b: seq<Byte>): (a: seq<Word>)
    ensures |a| == (|b| + 3) / 4
  {
    Unpack(b + Zeros(PadLength(|b|)))
  }

  lemma {:induction false} UnpackPack(a: seq<Word>)
    ensures Unpack(A32ToStr(a)) == a
  {
    if |a| > 0 {
      var b := A32ToStr(a);
      assert b[..4] == WordBytes(a[0]);
      assert b[4..] == A32ToStr(a[1..]);
      WordBytesWord(a[0]);
      UnpackPack(a[1..]);
    }
  }

  lemma {:induction false} PackUnpack(b: seq<Byte>)
    requires |b| % 4 == 0
    ensures A32ToStr(Unpack(b)) == b
  {
    if |b| > 0 {
      var a := Unpack(b);
      assert a[0] == BytesWord(b[..4]) && a[1..] == Unpack(b[4..]);
      BytesWordBytes(b[..4]);
      PackUnpack(b[4..]);
      assert b[..4] + b[4..] == b;
    }
  }

  /** Words survive a trip through bytes. */
  lemma A32RoundTrip(a: seq<Word>)
    ensures StrToA32(A32ToStr(a)) == a
  {
    assert A32ToStr(a) + Zeros(PadLength(|A32ToStr(a)|)) == A32ToStr(a);
    UnpackPack(a);
  }

  /** Bytes come back from their words with the zero padding appended, and
      unchanged when their length is a multiple of four. */
  lemma BytesRoundTrip(b: seq<Byte>)
    ensures A32ToStr(StrToA32(b)) == b + Zeros(PadLength(|b|))
    ensures |b| % 4 == 0 ==> A32ToStr(StrToA32(b)) == b
  {
    PackUnpack(b + Zeros(PadLength(|b|)));
    assert |b| % 4 == 0 ==> b + Zeros(PadLength(|b|)) == b;
  }

  // ---------------------------------------------------------------------
  // extended Euclid and the modular inverse
  // ---------------------------------------------------------------------

  lemma BezoutStep(a: int, b: int, q: int, m: int, g: int, x: int, y: int)
    requires b == a * q + m
    requires m * y + a * x == g
    ensures a * (x - q * y) + b * y == g
  {
    calc {
      a * (x - q * y) + b * y;
      a * x - a * q * y + (a * q + m) * y;
      { assert (a * q + m) * y == a * q * y + m * y; }
      a * x + m * y;
    }
  }

  /** `extended_gcd(a, b)`: a triple (g, x, y) with a*x + b*y == g, computed
      with Python's floor division and remainder. */
  function ExtendedGcd(a: int, b: int): (r: (int, int, int))
    ensures a * r.1 + b * r.2 == r.0
    decreases if a < 0 then -a else a
  {
    if a == 0 then (b, 0, 1)
    else
      var (g, y, x) := ExtendedGcd(FloorMod(b, a), a);
      BezoutStep(a, b, FloorDiv(b, a), FloorMod(b, a), g, x, y);
      (g, x - FloorDiv(b, a) * y, y)
  }

  function Multiple(d: int, k: int): int {
    d * k
  }

  /** `d` divides `n`. */
  ghost predicate Divides(d: int, n: int) {
    exists k :: n == Multiple(d, k)
  }

  lemma {:induction false} ExtendedGcdDivides(a: int, b: int)
    requires 0 <= a && 0 <= b
    ensures 0 <= ExtendedGcd(a, b).0
    ensures Divides(ExtendedGcd(a, b).0, a) && Divides(ExtendedGcd(a, b).0, b)
    decreases a
  {
    if a == 0 {
      assert a == Multiple(b, 0);
      assert b == Multiple(b, 1);
    } else {
      var m, q := FloorMod(b, a), FloorDiv(b, a);
      ExtendedGcdDivides(m, a);
      var g := ExtendedGcd(m, a).0;
      assert ExtendedGcd(a, b).0 == g;
      var km :| m == Multiple(g, km);
      var ka :| a == Multiple(g, ka);
      MultipleCombine(g, ka, q, km, 1);
    }
  }

  /** A combination of multiples of `d` is a multiple of `d`. */
  lemma MultipleCombine(d: int, k1: int, c1: int, k2: int, c2: int)
    ensures Multiple(d, k1) * c1 + Multiple(d, k2) * c2 == Multiple(d, k1 * c1 + k2 * c2)
  {
    calc {
      Multiple(d, k1 * c1 + k2 * c2);
      d * (k1 * c1 + k2 * c2);
      d * (k1 * c1) + d * (k2 * c2);
      { assert d * (k1 * c1) == (d * k1) * c1; assert d * (k2 * c2) == (d * k2) * c2; }
      (d * k1) * c1 + (d * k2) * c2;
    }
  }

  /** For non-negative inputs the first component is the greatest common
      divisor: a non-negative common divisor that every common divisor divides. */
  lemma ExtendedGcdIsGcd(a: int, b: int, d: int)
    requires 0 <= a && 0 <= b
    ensures 0 <= ExtendedGcd(a, b).0
    ensures Divides(ExtendedGcd(a, b).0, a) && Divides(ExtendedGcd(a, b).0, b)
    ensures Divides(d, a) && Divides(d, b) ==> Divides(d, ExtendedGcd(a, b).0)
  {
    ExtendedGcdDivides(a, b);
    if Divides(d, a) && Divides(d, b) {
      var (g, x, y) := ExtendedGcd(a, b);
      var ka :| a == Multiple(d, ka);
      var kb :| b == Multiple(d, kb);
      MultipleCombine(d, ka, x, kb, y);
    }
  }

  lemma InverseStep(a: int, m: int, x: int, y: int, q: int, r: int)
    requires a * x + m * y == 1
    requires x == m * q + r
    ensures a * r - 1 == Multiple(m, -y - a * q)
  {
    assert a * x == a * (m * q) + a * r;
    assert m * (-y - a * q) == -(m * y) - (a * m) * q;
    assert a * (m * q) == (a * m) * q;
  }

  /** `modular_inverse(a, m)`: raises when the gcd is not 1 (and divides by
      zero for m == 0); otherwise the result r is an inverse of a modulo m,
      in [0, m) for a positive m. */
  function ModularInverse(a: int, m: int): (r: Result<int>)
    ensures r.Err? <==> ExtendedGcd(a, m).0 != 1 || m == 0
    ensures ExtendedGcd(a, m).0 != 1 ==> r == Err(GenericException("modular inverse does not exist"))
    ensures r.Ok? ==> Divides(m, a * r.value - 1)
    ensures r.Ok? && 0 < m ==> 0 <= r.value < m
  {
    var (g, x, y) := ExtendedGcd(a, m);
    if g != 1 then Err(GenericException("modular inverse does not exist"))
    else if m == 0 then Err(ZeroDivisionError)
    else
      InverseStep(a, m, x, y, FloorDiv(x, m), FloorMod(x, m));
      Ok(FloorMod(x, m))
  }

  // ---------------------------------------------------------------------
  // base64 (section 4 of RFC 4648)
  // ---------------------------------------------------------------------

  /** The value of a character of the standard base64 alphabet. */
  function SextetValue(c: char): (v: Option<int>)
    ensures v.Some? ==> 0 <= v.value < 64
  {
    if 'A' <= c <= 'Z' then Some(c as int - 'A' as int)
    else if 'a' <= c <= 'z' then Some(c as int - 'a' as int + 26)
    else if '0' <= c <= '9' then Some(c as int - '0' as int + 52)
    else if c == '+' then Some(62)
    else if c == '/' then Some(63)
    else None
  }

  predicate IsBase64Digit(c: char) {
    SextetValue(c).Some?
  }

  /** The character for a six-bit value; reading it back gives the value. */
  function Sextet(v: int): (c: char)
    requires 0 <= v < 64
    ensures SextetValue(c) == Some(v)
  {
    if v < 26 then ('A' as int + v) as char
    else if v < 52 then ('a' as int + (v - 26)) as char
    else if v < 62 then ('0' as int + (v - 52)) as char
    else if v == 62 then '+'
    else '/'
  }

  /** The alphabet characters of the encoding: four per three bytes, and two
      or three for a final group of one or two bytes. */
  function Digits(b: seq<Byte>): (s: string)
    ensures |s| == (4 * |b| + 2) / 3
    ensures forall i | 0 <= i < |s| :: IsBase64Digit(s[i])
  {
    if |b| == 0 then []
    else if |b| == 1 then [Sextet(b[0] / 4), Sextet(b[0] % 4 * 16)]
    else if |b| == 2 then [Sextet(b[0] / 4), Sextet(b[0] % 4 * 16 + b[1] / 16), Sextet(b[1] % 16 * 4)]
    else
      [Sextet(b[0] / 4), Sextet(b[0] % 4 * 16 + b[1] / 16), Sextet(b[1] % 16 * 4 + b[2] / 64), Sextet(b[2] % 64)]
      + Digits(b[3..])
  }

  function PadCount(n: nat): nat {
    (3 - n % 3) % 3
  }

  /** `b64encode`: the digits followed by '=' up to a multiple of four. */
  function B64Encode(b: seq<Byte>): (s: string)
    ensures |s| % 4 == 0
  {
    PaddedLength(|b|);
    Digits(b) + Repeat('=', PadCount(|b|))
  }

  /** The digits and the padding of `n` bytes fill whole groups of four. */
  lemma PaddedLength(n: nat)
    ensures ((4 * n + 2) / 3 + PadCount(n)) % 4 == 0
  {
    var q := n / 3;
    if n % 3 == 0 {
      assert 4 * n + 2 == 3 * (4 * q) + 2;
      assert (4 * n + 2) / 3 == 4 * q;
    } else if n % 3 == 1 {
      assert 4 * n + 2 == 3 * (4 * q + 2);
      assert (4 * n + 2) / 3 == 4 * q + 2;
    } else {
      assert 4 * n + 2 == 3 * (4 * q + 3) + 1;
      assert (4 * n + 2) / 3 == 4 * q + 3;
    }
  }

  /** Three bytes from a group of four digits. */
  function DecodeGroup(q: string): (r: Option<seq<Byte>>)
    requires |q| == 4
  {
    if IsBase64Digit(q[0]) && IsBase64Digit(q[1]) && IsBase64Digit(q[2]) && IsBase64Digit(q[3]) then
      var v0, v1, v2, v3 := SextetValue(q[0]).value, SextetValue(q[1]).value,
                            SextetValue(q[2]).value, SextetValue(q[3]).value;
      Some([v0 * 4 + v1 / 16, v1 % 16 * 16 + v2 / 4, v2 % 4 * 64 + v3])
    else None
  }

  /** The last group, which may end in "==" (one byte) or "=" (two bytes). */
  function DecodeLast(q: string): (r: Option<seq<Byte>>)
    requires |q| == 4
  {
    if q[2] == '=' && q[3] == '=' then
      if IsBase64Digit(q[0]) && IsBase64Digit(q[1]) then
        Some([SextetValue(q[0]).value * 4 + SextetValue(q[1]).value / 16])
      else None
    else if q[3] == '=' then
      if IsBase64Digit(q[0]) && IsBase64Digit(q[1]) && IsBase64Digit(q[2]) then
        var v0, v1, v2 := SextetValue(q[0]).value, SextetValue(q[1]).value, SextetValue(q[2]).value;
        Some([v0 * 4 + v1 / 16, v1 % 16 * 16 + v2 / 4])
      else None
    else DecodeGroup(q)
  }

  /** `b64decode` of well-formed input; anything else is `binascii.Error`,
      modelled as `None`. */
  function B64Decode(s: string): (r: Option<seq<Byte>>)
    decreases |s|
  {
    if |s| % 4 != 0 then None
    else if |s| == 0 then Some([])
    else if |s| == 4 then DecodeLast(s)
    else
      match DecodeGroup(s[..4])
      case None => None
      case Some(g) =>
        match B64Decode(s[4..])
        case None => None
        case Some(rest) => Some(g + rest)
  }

  /** The sextets of three bytes give the bytes back. */
  lemma SextetArith(b0: Byte, b1: Byte, b2: Byte)
    ensures var v0, v1, v2, v3 := b0 / 4, b0 % 4 * 16 + b1 / 16, b1 % 16 * 4 + b2 / 64, b2 % 64;
      v0 * 4 + v1 / 16 == b0 && v1 % 16 * 16 + v2 / 4 == b1 && v2 % 4 * 64 + v3 == b2
  {
  }

  /** The final group of one, two or three bytes decodes back. */
  lemma B64LastGroup(b: seq<Byte>)
    requires 1 <= |b| <= 3
    ensures |B64Encode(b)| == 4 && DecodeLast(B64Encode(b)) == Some(b)
  {
    var s := B64Encode(b);
    var d := Digits(b);
    assert s[0] == d[0] && s[1] == d[1];
    if |b| == 1 {
      SextetArith(b[0], 0, 0);
      assert d == [Sextet(b[0] / 4), Sextet(b[0] % 4 * 16)];
      assert s[2] == '=' && s[3] == '=';
      assert [b[0]] == b;
    } else if |b| == 2 {
      SextetArith(b[0], b[1], 0);
      assert d == [Sextet(b[0] / 4), Sextet(b[0] % 4 * 16 + b[1] / 16), Sextet(b[1] % 16 * 4)];
      assert s[2] == d[2] && s[2] != '=' && s[3] == '=';
      assert [b[0], b[1]] == b;
    } else {
      GroupDecode(b[0], b[1], b[2]);
      assert s == d == GroupDigits(b[0], b[1], b[2]);
      assert [b[0], b[1], b[2]] == b;
    }
  }

  function GroupDigits(b0: Byte, b1: Byte, b2: Byte): string {
    [Sextet(b0 / 4), Sextet(b0 % 4 * 16 + b1 / 16), Sextet(b1 % 16 * 4 + b2 / 64), Sextet(b2 % 64)]
  }

  lemma GroupDecode(b0: Byte, b1: Byte, b2: Byte)
    ensures DecodeGroup(GroupDigits(b0, b1, b2)) == Some([b0, b1, b2])
    ensures DecodeLast(GroupDigits(b0, b1, b2)) == Some([b0, b1, b2])
  {
    var v0, v1, v2, v3 := b0 / 4, b0 % 4 * 16 + b1 / 16, b1 % 16 * 4 + b2 / 64, b2 % 64;
    DecodeSextets(GroupDigits(b0, b1, b2), v0, v1, v2, v3);
    SextetArith(b0, b1, b2);
  }

  /** Four alphabet characters decode to the three bytes their values pack,
      whether or not the group is the last. */
  lemma DecodeSextets(q: string, v0: int, v1: int, v2: int, v3: int)
    requires |q| == 4
    requires SextetValue(q[0]) == Some(v0) && SextetValue(q[1]) == Some(v1)
    requires SextetValue(q[2]) == Some(v2) && SextetValue(q[3]) == Some(v3)
    ensures DecodeGroup(q) == Some([v0 * 4 + v1 / 16, v1 % 16 * 16 + v2 / 4, v2 % 4 * 64 + v3])
    ensures DecodeLast(q) == DecodeGroup(q)
  {
    assert q[3] != '=';
  }

  /** A leading group of three bytes decodes back. */
  lemma B64FirstGroup(b: seq<Byte>)
    requires 3 < |b|
    ensures B64Encode(b)[..4] == Digits(b[..3]) && B64Encode(b)[4..] == B64Encode(b[3..])
    ensures DecodeGroup(Digits(b[..3])) == Some(b[..3])
  {
    assert DecodeGroup(Digits(b[..3])) == Some(b[..3]) by {
      DigitsFirstGroup(b);
      GroupDecode(b[0], b[1], b[2]);
      assert [b[0], b[1], b[2]] == b[..3];
    }
    B64EncodeCons(b);
    HeadOfFour(Digits(b[..3]), B64Encode(b[3..]));
  }

  /** The encoding of more than three bytes: the digits of the first three,
      then the encoding of the rest. */
  lemma B64EncodeCons(b: seq<Byte>)
    requires 3 < |b|
    ensures |Digits(b[..3])| == 4
    ensures B64Encode(b) == Digits(b[..3]) + B64Encode(b[3..])
  {
    DigitsFirstGroup(b);
    PadCountShift(|b|);
    var pad := Repeat('=', PadCount(|b| - 3));
    assert Digits(b) + pad == Digits(b[..3]) + (Digits(b[3..]) + pad);
  }

  /** Three bytes more or less need the same padding. */
  lemma PadCountShift(n: nat)
    requires n >= 3
    ensures PadCount(n) == PadCount(n - 3)
  {
    assert n % 3 == (n - 3) % 3;
  }

  /** A text of four characters heads any text it is put in front of. */
  lemma HeadOfFour(head: string, rest: string)
    requires |head| == 4
    ensures (head + rest)[..4] == head && (head + rest)[4..] == rest
  {
  }

  /** The digits of more than three bytes: four for the first three, then
      the digits of the rest. */
  lemma DigitsFirstGroup(b: seq<Byte>)
    requires 3 < |b|
    ensures Digits(b[..3]) == GroupDigits(b[0], b[1], b[2])
    ensures Digits(b) == Digits(b[..3]) + Digits(b[3..])
  {
    assert b[..3][3..] == [];
  }

  /** Decoding the encoding gives the bytes back. */
  lemma {:induction false} B64RoundTrip(b: seq<Byte>)
    ensures B64Decode(B64Encode(b)) == Some(b)
    decreases |b|
  {
    if |b| == 0 {
      assert B64Encode(b) == "";
    } else if |b| <= 3 {
      B64LastGroup(b);
      DecodeOne(B64Encode(b));
    } else {
      var head, rest := Digits(b[..3]), B64Encode(b[3..]);
      B64FirstGroup(b);
      B64EncodeCons(b);
      B64RoundTrip(b[3..]);
      EncodeNonEmpty(b[3..]);
      DecodeCons(B64Encode(b), head, rest, b[..3], b[3..]);
      assert b[..3] + b[3..] == b;
    }
  }

  /** Four characters are the last group. */
  lemma DecodeOne(s: string)
    requires |s| == 4
    ensures B64Decode(s) == DecodeLast(s)
  {
  }

  /** Some bytes encode to some text. */
  lemma EncodeNonEmpty(b: seq<Byte>)
    requires |b| > 0
    ensures |B64Encode(b)| > 0
  {
    assert |Digits(b)| > 0;
  }

  /** A group of four digits in front of a non-empty encoding decodes to its
      three bytes in front of what the encoding decodes to. */
  lemma DecodeCons(s: string, head: string, rest: string, g: seq<Byte>, tail: seq<Byte>)
    requires s == head + rest
    requires |head| == 4 && |rest| > 0 && |rest| % 4 == 0 && DecodeGroup(head) == Some(g)
    requires B64Decode(rest) == Some(tail)
    ensures B64Decode(s) == Some(g + tail)
  {
    ShiftFour(|rest|);
    assert s[..4] == head;
    assert s[4..] == rest;
  }

  /** Four characters more keep a length a multiple of four. */
  lemma ShiftFour(n: nat)
    requires n % 4 == 0
    ensures (n + 4) % 4 == 0
  {
  }

  // ---------------------------------------------------------------------
  // URL-safe base64 (section 5 of RFC 4648)
  // ---------------------------------------------------------------------

  /** The padding `base64_url_decode` appends: `'=='[(2 - n*3) % 4:]`. It
      completes a multiple of four unless the length is 1 modulo 4. */
  function UrlPadding(n: nat): (p: string)
    ensures n % 4 != 1 ==> (n + |p|) % 4 == 0
    ensures n % 4 == 1 ==> p == ""
    ensures forall i | 0 <= i < |p| :: p[i] == '='
  {
    var k := (2 - n * 3) % 4;
    PaddingIndex(n);
    if k >= 2 then "" else Repeat('=', 2 - k)
  }

  lemma PaddingIndex(n: nat)
    ensures (2 - n * 3) % 4 == [2, 3, 0, 1][n % 4]
  {
    var q, r := n / 4, n % 4;
    assert 2 - n * 3 == 4 * (-3 * q) + (2 - 3 * r);
  }

  /** `base64_url_encode`: '+' becomes '-', '/' becomes '_', padding is dropped. */
  function Base64UrlEncode(b: seq<Byte>): (s: string)
    ensures '+' !in s && '/' !in s && '=' !in s
  {
    var e := B64Encode(b);
    var u := ReplaceAll(ReplaceAll(e, "+", "-"), "/", "_");
    ReplaceCharPointwise(e, '+', '-');
    ReplaceCharPointwise(ReplaceAll(e, "+", "-"), '/', '_');
    UrlMappedShape(b);
    RemoveTrailingRun(u[..|Digits(b)|], '=', PadCount(|b|));
    RemoveAll(u, "=")
  }

  /** The URL-safe mapping keeps the digit part free of '=', '+' and '/' and
      the padding as it was. */
  lemma UrlMappedShape(b: seq<Byte>)
    ensures var u := ReplaceAll(ReplaceAll(B64Encode(b), "+", "-"), "/", "_");
      && |u| == |B64Encode(b)|
      && u == u[..|Digits(b)|] + seq(PadCount(|b|), _ => '=')
      && (forall i | 0 <= i < |Digits(b)| ::
            u[i] != '=' && u[i] != '+' && u[i] != '/' && u[i] != ',' &&
            (if Digits(b)[i] == '+' then u[i] == '-' else if Digits(b)[i] == '/' then u[i] == '_' else u[i] == Digits(b)[i]))
  {
    var e := B64Encode(b);
    ReplaceCharPointwise(e, '+', '-');
    ReplaceCharPointwise(ReplaceAll(e, "+", "-"), '/', '_');
    var u := ReplaceAll(ReplaceAll(e, "+", "-"), "/", "_");
    assert u == u[..|Digits(b)|] + seq(PadCount(|b|), _ => '=');
  }

  /** `base64_url_decode`: pad, map '-' and '_' back, drop ',', then decode. */
  function Base64UrlDecode(data: string): Option<seq<Byte>> {
    B64Decode(RemoveAll(ReplaceAll(ReplaceAll(data + UrlPadding(|data|), "-", "+"), "_", "/"), ","))
  }

  /** The padding restored for the digits of `n` bytes is the padding the
      encoder wrote. */
  lemma DigitsPadding(n: nat)
    ensures UrlPadding((4 * n + 2) / 3) == Repeat('=', PadCount(n))
  {
    var m := (4 * n + 2) / 3;
    var q, r := n / 3, n % 3;
    if r == 0 {
      assert 4 * n + 2 == 3 * (4 * q) + 2;
      assert m == 4 * q;
    } else if r == 1 {
      assert 4 * n + 2 == 3 * (4 * q + 2);
      assert m == 4 * q + 2;
    } else {
      assert 4 * n + 2 == 3 * (4 * q + 3) + 1;
      assert m == 4 * q + 3;
    }
    PaddingIndex(m);
  }

  /** The URL-safe character for a base64 character. */
  function UrlChar(c: char): char {
    if c == '+' then '-' else if c == '/' then '_' else c
  }

  /** The URL-safe encoding is the digits, each mapped to its URL-safe character. */
  lemma UrlEncodeIsMapped(b: seq<Byte>)
    ensures |Base64UrlEncode(b)| == |Digits(b)| == (4 * |b| + 2) / 3
    ensures forall i | 0 <= i < |Digits(b)| :: Base64UrlEncode(b)[i] == UrlChar(Digits(b)[i])
  {
    var e := B64Encode(b);
    var u := ReplaceAll(ReplaceAll(e, "+", "-"), "/", "_");
    UrlMappedShape(b);
    var x := u[..|Digits(b)|];
    assert '=' !in x;
    RemoveTrailingRun(x, '=', PadCount(|b|));
  }

  /** Mapping the URL-safe characters back, after padding, restores the
      base64 text; dropping ',' then changes nothing. */
  lemma UrlUnmap(x: string, d: string, pad: string)
    requires |x| == |d|
    requires forall i | 0 <= i < |d| :: IsBase64Digit(d[i]) && x[i] == UrlChar(d[i])
    requires forall i | 0 <= i < |pad| :: pad[i] == '='
    ensures RemoveAll(ReplaceAll(ReplaceAll(x + pad, "-", "+"), "_", "/"), ",") == d + pad
    ensures d + Repeat('=', |pad|) == d + pad
  {
    var y := x + pad;
    var e := d + pad;
    ReplaceCharPointwise(y, '-', '+');
    var t1 := ReplaceAll(y, "-", "+");
    ReplaceCharPointwise(t1, '_', '/');
    var t2 := ReplaceAll(t1, "_", "/");
    assert t2 == e by {
      forall i | 0 <= i < |e|
        ensures t2[i] == e[i]
      {
        if i < |d| {
          assert IsBase64Digit(d[i]);
        }
      }
    }
    assert ',' !in e by {
      forall i | 0 <= i < |e| ensures e[i] != ',' {
        if i < |d| {
          assert IsBase64Digit(d[i]);
        }
      }
    }
    ForeignCharAvoids(e, ",", ',');
    ReplaceAbsent(e, ",", "");
  }

  /** Decoding the URL-safe encoding gives the bytes back. */
  lemma UrlRoundTrip(b: seq<Byte>)
    ensures Base64UrlDecode(Base64UrlEncode(b)) == Some(b)
  {
    UrlRestored(b);
    B64RoundTrip(b);
  }

  /** What `base64_url_decode` hands to the decoder, for an encoded value, is
      the standard encoding. */
  lemma UrlRestored(b: seq<Byte>)
    ensures var x := Base64UrlEncode(b);
      RemoveAll(ReplaceAll(ReplaceAll(x + UrlPadding(|x|), "-", "+"), "_", "/"), ",") == B64Encode(b)
  {
    var x, d := Base64UrlEncode(b), Digits(b);
    var pad := UrlPadding(|x|);
    assert |x| == |d| && forall i | 0 <= i < |d| :: IsBase64Digit(d[i]) && x[i] == UrlChar(d[i]) by {
      UrlEncodeIsMapped(b);
    }
    assert B64Encode(b) == d + Repeat('=', |pad|) by {
      UrlEncodeIsMapped(b);
      DigitsPadding(|b|);
    }
    UrlUnmap(x, d, pad);
  }

  /** `a32_to_base64` and `base64_to_a32`. */
  function A32ToBase64(a: seq<Word>): string {
    Base64UrlEncode(A32ToStr(a))
  }

  function Base64ToA32(s: string): Option<seq<Word>> {
    match Base64UrlDecode(s)
    case None => None
    case Some(b) => Some(StrToA32(b))
  }

  /** Words survive a trip through URL-safe base64. */
  lemma A32Base64RoundTrip(a: seq<Word>)
    ensures Base64ToA32(A32ToBase64(a)) == Some(a)
  {
    UrlRoundTrip(A32ToStr(a));
    A32RoundTrip(a);
  }

  // ---------------------------------------------------------------------
  // chunk schedule
  // ---------------------------------------------------------------------

  /** The i-th step of the schedule: 0x20000 growing by 0x20000 up to 0x100000. */
  function ChunkStep(i: nat): int {
    if i < 7 then (i + 1) * 0x20000 else 0x100000
  }

  function Sum(xs: seq<int>): int {
    if |xs| == 0 then 0 else Sum(xs[..|xs| - 1]) + xs[|xs| - 1]
  }

  /** `get_chunks(size)`: full steps while they fit strictly, then the rest. */
  method GetChunks(size: int) returns (chunks: seq<int>)
    ensures |chunks| >= 1 && Sum(chunks) == size
    ensures forall i | 0 <= i < |chunks| - 1 :: chunks[i] == ChunkStep(i)
    ensures 0 < size ==> 0 < chunks[|chunks| - 1] <= ChunkStep(|chunks| - 1)
    ensures size <= 0x20000 ==> chunks == [size]
  {
    var p := 0;
    var s := 0x20000;
    chunks := [];
    while p + s < size
      invariant p == Sum(chunks) && s == ChunkStep(|chunks|)
      invariant forall i | 0 <= i < |chunks| :: chunks[i] == ChunkStep(i)
      invariant 0 <= p && (|chunks| > 0 ==> 0x20000 <= p < size)
      decreases size - p
    {
      chunks := chunks + [s];
      assert chunks[..|chunks| - 1] == chunks[..|chunks| - 1];
      p := p + s;
      if s < 0x100000 {
        s := s + 0x20000;
      }
    }
    chunks := chunks + [size - p];
    assert chunks[..|chunks| - 1] + [size - p] == chunks;
  }

  // ---------------------------------------------------------------------
  // attributes
  // ---------------------------------------------------------------------

  const AttrPrefix: string := "MEGA{\""

  /** `decrypt_attr` after decryption: the JSON text of the attributes when
      the NUL-stripped plaintext starts with `MEGA{"`, else `False` (`None`). */
  function AttrJson(plain: string): (r: Option<string>)
    ensures r.Some? <==> StartsWith(RStrip(plain, '\0'), AttrPrefix)
    ensures r.Some? ==> "MEGA" + r.value == RStrip(plain, '\0') && StartsWith(r.value, "{\"")
  {
    var attr := RStrip(plain, '\0');
    if StartsWith(attr, AttrPrefix) then
      assert "MEGA" + attr[4..] == attr by { assert attr[..4] == "MEGA"; }
      Some(attr[4..])
    else None
  }

  /** `mega_filename`: the `n` member of the attributes, "" when missing; when
      the prefix check fails, `False.get` raises `AttributeError`. The JSON
      parse is not modelled: `name` is the `n` member of the parsed object. */
  function MegaFilename(plain: string, name: Option<string>): (r: Result<string>)
    ensures r.Err? <==> !StartsWith(RStrip(plain, '\0'), AttrPrefix)
    ensures r.Err? ==> r.error == AttributeError
    ensures r.Ok? && name.Some? ==> r.value == name.value
    ensures name.None? && r.Ok? ==> r.value == ""
  {
    match AttrJson(plain)
    case None => Err(AttributeError)
    case Some(_) => Ok(if name.Some? then name.value else "")
  }

  // ---------------------------------------------------------------------
  // API replies
  // ---------------------------------------------------------------------

  /** A decoded API reply: an integer, a list, or anything else (an object). */
  datatype Json<V> = JInt(n: int) | JList(items: seq<Json<V>>) | JOther(v: V)

  /** The integer a reply stands for: the reply itself, or the first element
      of a list when that is an integer. */
  function IntCode<V>(reply: Json<V>): Option<int> {
    match reply
    case JInt(n) => Some(n)
    case JList(items) => if |items| > 0 && items[0].JInt? then Some(items[0].n) else None
    case JOther(_) => None
  }

  /** `RequestError(code)` looks its code up in the table of codes -1 to -22;
      any other code raises `KeyError` from the constructor. */
  function RequestFailure(code: int): (e: Error)
    ensures e == RequestError(code) <==> -22 <= code <= -1
    ensures e != RequestError(code) ==> e == KeyError
  {
    if -22 <= code <= -1 then RequestError(code) else KeyError
  }

  /** `_api_request` after the POST: 0 is returned, -3 raises the retryable
      `RuntimeError`, any other integer raises `RequestError`; a list without
      a leading integer gives its first element (`IndexError` when empty); an
      object leaves `int_resp` unbound. */
  function ApiOutcome<V>(reply: Json<V>): (r: Result<Json<V>>)
    ensures r.Ok? <==> IntCode(reply) == Some(0) || (reply.JList? && |reply.items| > 0 && !reply.items[0].JInt?)
    ensures IntCode(reply) == Some(0) ==> r == Ok(JInt(0))
    ensures IntCode(reply) == Some(-3) ==> r == Err(RuntimeError)
    ensures IntCode(reply).Some? && IntCode(reply).value != 0 && IntCode(reply).value != -3 ==>
      r == Err(RequestFailure(IntCode(reply).value))
    ensures r.Ok? && IntCode(reply).None? ==> r.value == reply.items[0]
    ensures reply.JList? && |reply.items| == 0 ==> r == Err(IndexError)
    ensures reply.JOther? ==> r == Err(UnboundLocalError)
  {
    match reply
    case JOther(_) => Err(UnboundLocalError)
    case JInt(n) => CodeOutcome(n)
    case JList(items) =>
      if |items| == 0 then Err(IndexError)
      else if items[0].JInt? then CodeOutcome(items[0].n)
      else Ok(items[0])
  }

  function CodeOutcome<V>(n: int): Result<Json<V>> {
    if n == 0 then Ok(JInt(0))
    else if n == -3 then Err(RuntimeError)
    else Err(RequestFailure(n))
  }

  // ---------------------------------------------------------------------
  // key and MAC
  // ---------------------------------------------------------------------

  function Pow2(n: nat): nat {
    if n == 0 then 1 else 2 * Pow2(n - 1)
  }

  lemma {:induction false} Pow2Add(a: nat, b: nat)
    ensures Pow2(a + b) == Pow2(a) * Pow2(b)
    decreases a
  {
    if a > 0 {
      Pow2Add(a - 1, b);
      assert Pow2(a + b) == 2 * Pow2(a - 1 + b);
    }
  }

  lemma Pow2Word()
    ensures Pow2(32) == 0x1_0000_0000
  {
    assert Pow2(8) == 0x100 by {
      assert Pow2(1) == 2 && Pow2(2) == 4 && Pow2(3) == 8 && Pow2(4) == 16;
      assert Pow2(5) == 32 && Pow2(6) == 64 && Pow2(7) == 128;
    }
    Pow2Add(8, 8);
    Pow2Add(16, 16);
  }

  /** Bitwise exclusive or of the low `n` bits. */
  function XorBits(a: nat, b: nat, n: nat): (r: nat)
    ensures r < Pow2(n)
  {
    if n == 0 then 0 else (a % 2 + b % 2) % 2 + 2 * XorBits(a / 2, b / 2, n - 1)
  }

  lemma LowBit(x: nat, bit: nat, h: nat)
    requires bit < 2 && x == bit + 2 * h
    ensures x % 2 == bit && x / 2 == h
  {
  }

  lemma {:induction false} XorBitsCancel(a: nat, b: nat, n: nat)
    requires a < Pow2(n)
    ensures XorBits(XorBits(a, b, n), b, n) == a
  {
    if n > 0 {
      var x, h := XorBits(a, b, n), XorBits(a / 2, b / 2, n - 1);
      LowBit(x, (a % 2 + b % 2) % 2, h);
      assert a / 2 < Pow2(n - 1) by {
        assert Pow2(n) == 2 * Pow2(n - 1);
      }
      XorBitsCancel(a / 2, b / 2, n - 1);
      BitCancel(a % 2, b % 2);
      assert XorBits(x, b, n) == (x % 2 + b % 2) % 2 + 2 * XorBits(h, b / 2, n - 1);
      assert a == a % 2 + 2 * (a / 2);
    }
  }

  /** Exclusive or with the same bit twice gives the bit back. */
  lemma BitCancel(p: nat, q: nat)
    requires p < 2 && q < 2
    ensures ((p + q) % 2 + q) % 2 == p
  {
  }

  /** Python `^` on two 32-bit words. */
  function Xor(a: Word, b: Word): Word {
    Pow2Word();
    XorBits(a, b, 32)
  }

  lemma XorCancel(a: Word, b: Word)
    ensures Xor(Xor(a, b), b) == a
  {
    Pow2Word();
    XorBitsCancel(a, b, 32);
  }

  /** The file key: k[i] = key[i] XOR key[i + 4] for i < 4; a key of fewer
      than eight words raises `IndexError`. */
  function FileKey(key: seq<Word>): (r: Result<seq<Word>>)
    ensures r.Err? <==> |key| < 8
    ensures r.Err? ==> r.error == IndexError
    ensures r.Ok? ==> |r.value| == 4
  {
    if |key| < 8 then Err(IndexError)
    else Ok([Xor(key[0], key[4]), Xor(key[1], key[5]), Xor(key[2], key[6]), Xor(key[3], key[7])])
  }

  /** The file key and the second half of the link key give back its first half. */
  lemma FileKeyRecoversKey(key: seq<Word>, i: nat)
    requires 8 <= |key| && i < 4
    ensures Xor(FileKey(key).value[i], key[i + 4]) == key[i]
  {
    XorCancel(key[i], key[i + 4]);
  }

  /** `meta_mac`: the slice `[6:8]` of the link key. */
  function MetaMac(key: seq<Word>): seq<Word> {
    if |key| <= 6 then [] else key[6..if |key| < 8 then |key| else 8]
  }

  /** The integrity check: the folded MAC must equal `meta_mac`, else `ValueError`. */
  function MacCheck(fileMac: (Word, Word, Word, Word), metaMac: seq<Word>): (r: Result<()>)
    ensures r.Ok? <==> |metaMac| == 2 && metaMac[0] == Xor(fileMac.0, fileMac.1) && metaMac[1] == Xor(fileMac.2, fileMac.3)
    ensures r.Err? ==> r.error == ValueError
  {
    if metaMac == [Xor(fileMac.0, fileMac.1), Xor(fileMac.2, fileMac.3)] then Ok(()) else Err(ValueError)
  }

  /** The sizes `read(n)` returns from a stream holding `available` bytes. */
  function ReadLength(n: int, remaining: int): int {
    if n <= remaining then n else remaining
  }

  function ReadTotal(chunks: seq<int>, available: int): int {
    if Sum(chunks) <= available then Sum(chunks) else available
  }

  /** Reading chunk `i` adds what the stream still holds, up to the chunk. */
  lemma ReadStep(chunks: seq<int>, i: nat, available: nat)
    requires i < |chunks|
    requires forall j | 0 <= j < |chunks| :: 0 <= chunks[j]
    ensures 0 <= ReadTotal(chunks[..i], available) <= available
    ensures ReadTotal(chunks[..i + 1], available) ==
            ReadTotal(chunks[..i], available) + ReadLength(chunks[i], available - ReadTotal(chunks[..i], available))
    ensures 0 <= ReadTotal(chunks[..i + 1], available) <= Sum(chunks)
  {
    assert chunks[..i + 1][..i] == chunks[..i];
    SumPrefix(chunks, i);
    SumPrefix(chunks, i + 1);
    SumNonNegative(chunks[..i]);
  }

  lemma {:induction false} SumNonNegative(xs: seq<int>)
    requires forall j | 0 <= j < |xs| :: 0 <= xs[j]
    ensures 0 <= Sum(xs)
  {
    if |xs| > 0 {
      SumNonNegative(xs[..|xs| - 1]);
    }
  }

  /** Every chunk of the schedule of a non-negative size is non-negative. */
  lemma ScheduleNonNegative(chunks: seq<int>, size: int)
    requires 0 <= size && |chunks| >= 1
    requires forall i | 0 <= i < |chunks| - 1 :: chunks[i] == ChunkStep(i)
    requires 0 < size ==> 0 < chunks[|chunks| - 1]
    requires size <= 0x20000 ==> chunks == [size]
    ensures forall j | 0 <= j < |chunks| :: 0 <= chunks[j]
  {
    forall j | 0 <= j < |chunks|
      ensures 0 <= chunks[j]
    {
      if j < |chunks| - 1 {
        assert chunks[j] == ChunkStep(j);
      }
    }
  }

  lemma {:induction false} SumPrefix(xs: seq<int>, k: nat)
    requires k <= |xs|
    requires forall i | 0 <= i < |xs| :: 0 <= xs[i]
    ensures Sum(xs[..k]) <= Sum(xs)
    decreases |xs| - k
  {
    if k < |xs| {
      SumPrefix(xs, k + 1);
      assert xs[..k + 1][..k] == xs[..k];
    } else {
      assert xs[..k] == xs;
    }
  }

  /** The first chunk of a file of more than 16 bytes holds more than 16
      bytes. */
  lemma FirstChunkLarge(chunks: seq<int>, size: int)
    requires |chunks| >= 1 && Sum(chunks) == size && 16 < size
    requires forall i | 0 <= i < |chunks| - 1 :: chunks[i] == ChunkStep(i)
    ensures 16 < chunks[0]
  {
    if |chunks| == 1 {
      assert chunks[..0] == [];
    } else {
      assert chunks[0] == ChunkStep(0);
    }
  }

  /** A whole file read gives 100 percent. */
  lemma PercentWhole(n: nat)
    requires 0 < n
    ensures Percent(n as real, n as real) == 100.0
  {
    assert n as real / n as real == 1.0;
    assert n as real / n as real * 100.0 * 100.0 == 10000 as real;
    RoundOfInt(10000);
  }

  /** The stop flag another thread clears, seen before chunk `i`. */
  predicate Stopped(stopAt: Option<nat>, i: nat) {
    stopAt.Some? && stopAt.value <= i
  }

  /** The state of a `Mega` object the download and the API calls update. */
  class MegaClient {
    var sequenceNum: int
    var sid: Option<string>
    var downloading: bool
    var progress: real
    var size: int
    /** The decoded key part of the link (`parsed_url[1]`). */
    const key: seq<Word>

    /** The state after `__init__`; the anonymous login and the file lookup
        are not part of this model. */
    constructor (sequenceStart: int, key: seq<Word>)
      requires 0 <= sequenceStart <= 0xFFFF_FFFF
      ensures sequenceNum == sequenceStart && this.key == key
      ensures sid == None && !downloading && progress == 0.0 && size == 0
    {
      sequenceNum := sequenceStart;
      sid := None;
      downloading := false;
      progress := 0.0;
      size := 0;
      this.key := key;
    }

    /** `_api_request`: the request carries the current sequence number and
        the session id when there is a non-empty one; the number goes up by
        one whatever the reply. */
    method ApiRequest<V>(reply: Json<V>) returns (r: Result<Json<V>>, sentId: int, sentSid: Option<string>)
      modifies this
      ensures sequenceNum == old(sequenceNum) + 1 && sentId == old(sequenceNum)
      ensures sentSid == (if Truthy(sid) then sid else None)
      ensures r == ApiOutcome(reply)
      ensures sid == old(sid) && downloading == old(downloading) && progress == old(progress) && size == old(size)
    {
      sentId := sequenceNum;
      sequenceNum := sequenceNum + 1;
      sentSid := if Truthy(sid) then sid else None;
      r := ApiOutcome(reply);
    }

    /** `download_url`: the file of `fileSize` bytes (`None` when the reply
        has no download URL) is read chunk by chunk from a stream holding
        `available` bytes until the stop flag is seen; an unstopped download
        ends with the MAC check. */
    method DownloadUrl(fileSize: Option<nat>, available: nat, stopAt: Option<nat>,
                       fileMac: (Word, Word, Word, Word)) returns (r: Result<()>)
      modifies this
      ensures sequenceNum == old(sequenceNum) && sid == old(sid)
      ensures fileSize.None? ==> r == Err(KeyError) && downloading && size == old(size)
      ensures fileSize.Some? ==> size == fileSize.value
      ensures fileSize == Some(0) && !Stopped(stopAt, 0) ==> r == Err(ZeroDivisionError)
      ensures stopAt == Some(0) && fileSize.Some? ==> r == Ok(()) && !downloading && progress == old(progress)
      ensures fileSize.Some? && fileSize.value > 16 && available <= 16 && !Stopped(stopAt, 0) ==>
        r == Err(UnboundLocalError) && progress == old(progress)
      ensures fileSize.Some? && fileSize.value > 0 && (fileSize.value <= 16 || available > 16) && stopAt.None? ==>
        downloading && progress == Percent(ReadLength(fileSize.value, available) as real, fileSize.value as real) &&
        r == MacCheck(fileMac, MetaMac(key))
      ensures fileSize.Some? && fileSize.value > 0 && available >= fileSize.value && stopAt.None? ==> progress == 100.0
      ensures 0.0 <= old(progress) <= 100.0 ==> 0.0 <= progress <= 100.0
    {
      downloading := true;
      if fileSize.None? {
        // `RequestError('File not accessible anymore')` looks a text up in the code table.
        return Err(KeyError);
      }
      size := fileSize.value;
      var chunks := GetChunks(size);
      ScheduleNonNegative(chunks, size);
      if 16 < size {
        FirstChunkLarge(chunks, size);
      }
      var downloaded := 0;
      var i := 0;
      while i < |chunks| && !Stopped(stopAt, i)
        invariant 0 <= i <= |chunks|
        invariant downloading && size == fileSize.value
        invariant sequenceNum == old(sequenceNum) && sid == old(sid)
        invariant downloaded == ReadTotal(chunks[..i], available)
        invariant i == 0 ==> progress == old(progress)
        invariant 0 < i ==> !Stopped(stopAt, i - 1) && (size <= 16 || available > 16)
        invariant 0 < i ==> 0 < size && progress == Percent(downloaded as real, size as real)
        invariant 0.0 <= old(progress) <= 100.0 ==> 0.0 <= progress <= 100.0
      {
        ReadStep(chunks, i, available);
        var read := ReadLength(chunks[i], available - downloaded);
        // The MAC loop's index is bound by the first chunk only when that
        // chunk holds more than 16 bytes or the file at most 16.
        if i == 0 && size > 16 && read <= 16 {
          assert available <= 16 by {
            assert chunks[..0] == [];
          }
          return Err(UnboundLocalError);
        }
        assert i == 0 ==> size <= 16 || available > 16 by {
          assert chunks[..0] == [];
        }
        downloaded := downloaded + read;
        if size == 0 {
          return Err(ZeroDivisionError);
        }
        PercentBounds(downloaded as real, size as real);
        progress := Percent(downloaded as real, size as real);
        i := i + 1;
      }
      if Stopped(stopAt, i) {
        downloading := false;
        r := Ok(());
      } else {
        assert chunks[..i] == chunks;
        if size > 0 && available >= size {
          PercentWhole(size);
        }
        r := MacCheck(fileMac, MetaMac(key));
      }
    }
  }
}
