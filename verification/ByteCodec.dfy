/** Byte-level building blocks of canonical encodings: little-endian integers, length prefixes, UTF-8 text. */
module ByteCodec {
  type Byte = x: int | 0 <= x < 256
  type Bytes = seq<Byte>

  const U64_LIMIT: nat := 0x1_0000_0000_0000_0000
  const U128_LIMIT: nat := 0x1_0000_0000_0000_0000_0000_0000_0000_0000

  type U64 = x: nat | x < U64_LIMIT
  type U128 = x: nat | x < U128_LIMIT
  type I64 = x: int | -0x8000_0000_0000_0000 <= x < 0x8000_0000_0000_0000

  /** The `k` low bytes of `n`, least significant first. */
  function LittleEndian(n: nat, k: nat): (b: Bytes)
    ensures |b| == k
  {
    if k == 0 then [] else [n % 256] + LittleEndian(n / 256, k - 1)
  }

  function Limit(k: nat): nat {
    if k == 0 then 1 else 256 * Limit(k - 1)
  }

  lemma Limits()
    ensures Limit(8) == U64_LIMIT && Limit(16) == U128_LIMIT
  {
    assert Limit(4) == 0x1_0000_0000;
    assert Limit(8) == 256 * (256 * (256 * (256 * Limit(4))));
    assert Limit(12) == 256 * (256 * (256 * (256 * Limit(8))));
    assert Limit(16) == 256 * (256 * (256 * (256 * Limit(12))));
  }

  /** The number that bytes, least significant first, stand for. */
  function Number(b: Bytes): nat {
    if b == [] then 0 else b[0] + 256 * Number(b[1..])
  }

  lemma {:induction false} LittleEndianRoundTrip(n: nat, k: nat)
    requires n < Limit(k)
    ensures Number(LittleEndian(n, k)) == n
  {
    if k > 0 {
      assert LittleEndian(n, k)[1..] == LittleEndian(n / 256, k - 1);
      LittleEndianRoundTrip(n / 256, k - 1);
    }
  }

  lemma LittleEndianInjective(a: nat, b: nat, k: nat)
    requires a < Limit(k) && b < Limit(k) && LittleEndian(a, k) == LittleEndian(b, k)
    ensures a == b
  {
    LittleEndianRoundTrip(a, k);
    LittleEndianRoundTrip(b, k);
  }

  /** A length as eight bytes; lengths beyond the range saturate. */
  function Length(n: nat): (b: Bytes)
    ensures |b| == 8
  {
    LittleEndian(if n < U64_LIMIT then n else U64_LIMIT - 1, 8)
  }

  function Id(n: U128): (b: Bytes)
    ensures |b| == 16
  {
    LittleEndian(n, 16)
  }

  /** Two's complement. */
  function Signed(n: I64): (b: Bytes)
    ensures |b| == 8
  {
    LittleEndian(if n >= 0 then n else U64_LIMIT + n, 8)
  }

  lemma LengthInjective(a: nat, b: nat)
    requires a < U64_LIMIT && b < U64_LIMIT && Length(a) == Length(b)
    ensures a == b
  {
    Limits();
    LittleEndianInjective(a, b, 8);
  }

  /** Reading a length gives it back, and the greatest one for lengths beyond the range; reading an id gives it back. */
  lemma LengthAndIdRoundTrip(n: nat, id: U128)
    ensures Number(Length(n)) == if n < U64_LIMIT then n else U64_LIMIT - 1
    ensures Number(Id(id)) == id
  {
    Limits();
    LittleEndianRoundTrip(if n < U64_LIMIT then n else U64_LIMIT - 1, 8);
    LittleEndianRoundTrip(id, 16);
  }

  lemma IdInjective(a: U128, b: U128)
    requires Id(a) == Id(b)
    ensures a == b
  {
    Limits();
    LittleEndianInjective(a, b, 16);
  }

  lemma SignedInjective(a: I64, b: I64)
    requires Signed(a) == Signed(b)
    ensures a == b
  {
    Limits();
    LittleEndianInjective(if a >= 0 then a else U64_LIMIT + a, if b >= 0 then b else U64_LIMIT + b, 8);
  }

  lemma {:induction false} TopByte(b: Bytes, k: nat)
    requires |b| == k + 1
    ensures Number(b[..k]) < Limit(k) && Number(b) == Number(b[..k]) + b[k] * Limit(k)
  {
    if k == 0 {
      assert b[1..] == [] && b[..0] == [];
    } else {
      TopByte(b[1..], k - 1);
      assert b[1..][..k - 1] == b[..k][1..];
      var low, top, limit := Number(b[..k][1..]), b[k], Limit(k - 1);
      assert 256 * (low + top * limit) == 256 * low + top * (256 * limit);
    }
  }

  /** The number that eight bytes stand for in two's complement: the top bit of the last byte is the sign. */
  function ReadSigned(b: Bytes): int
    requires |b| == 8
  {
    if b[7] < 0x80 then Number(b) else Number(b) - U64_LIMIT
  }

  lemma SignedRoundTrip(n: I64)
    ensures ReadSigned(Signed(n)) == n
  {
    var m, b := if n >= 0 then n else U64_LIMIT + n, Signed(n);
    Limits();
    LittleEndianRoundTrip(m, 8);
    TopByte(b, 7);
    assert Limit(8) == 256 * Limit(7);
  }

  /** Equal prefixes of equal length can be stripped. */
  lemma SameLengthPrefix(a: Bytes, b: Bytes, x: Bytes, y: Bytes)
    requires |a| == |b| && a + x == b + y
    ensures a == b && x == y
  {
    assert (a + x)[..|a|] == a && (b + y)[..|b|] == b;
    assert (a + x)[|a|..] == x && (b + y)[|b|..] == y;
  }

  lemma Regroup(a: Bytes, b: Bytes, c: Bytes, d: Bytes)
    ensures (a + b + c) + d == a + (b + (c + d))
  {
  }

  // ----- UTF-8 -----

  function Scalar(c: char): Bytes {
    var n := c as int;
    if n < 0x80 then [n]
    else if n < 0x800 then [0xC0 + n / 0x40, 0x80 + n % 0x40]
    else if n < 0x1_0000 then [0xE0 + n / 0x1000, 0x80 + n / 0x40 % 0x40, 0x80 + n % 0x40]
    else [0xF0 + n / 0x4_0000, 0x80 + n / 0x1000 % 0x40, 0x80 + n / 0x40 % 0x40, 0x80 + n % 0x40]
  }

  function Utf8(text: string): Bytes {
    if text == "" then [] else Scalar(text[0]) + Utf8(text[1..])
  }

  /** The continuation byte at `i` carries six bits. */
  predicate Continues(b: Bytes, i: nat) {
    i < |b| && 0x80 <= b[i] < 0xC0
  }

  function SixBits(b: Bytes, i: nat): nat
    requires Continues(b, i)
  {
    b[i] - 0x80
  }

  /** The scalar at the front, by the layout of its bits: the first byte says how many bytes there are and carries
      the highest bits, every further one carries six more; and how many bytes there were. */
  function ReadScalar(b: Bytes): (nat, nat) {
    if b == [] then (0, 0)
    else
      var first: int := b[0];
      if first < 0x80 then (first, 1)
      else if 0xC0 <= first < 0xE0 && Continues(b, 1) then (0x40 * (first - 0xC0) + SixBits(b, 1), 2)
      else if 0xE0 <= first < 0xF0 && Continues(b, 1) && Continues(b, 2) then
        (0x1000 * (first - 0xE0) + 0x40 * SixBits(b, 1) + SixBits(b, 2), 3)
      else if 0xF0 <= first < 0xF8 && Continues(b, 1) && Continues(b, 2) && Continues(b, 3) then
        (0x4_0000 * (first - 0xF0) + 0x1000 * SixBits(b, 1) + 0x40 * SixBits(b, 2) + SixBits(b, 3), 4)
      else (0, 0)
  }

  /** Reading gives the scalar back, from as few bytes as its size allows. */
  lemma ScalarRoundTrip(c: char, rest: Bytes)
    ensures ReadScalar(Scalar(c) + rest) == (c as int, |Scalar(c)|)
    ensures |Scalar(c)| == if c as int < 0x80 then 1 else if c as int < 0x800 then 2 else if c as int < 0x1_0000 then 3 else 4
  {
    var n, b := c as int, Scalar(c) + rest;
    assert forall i | 0 <= i < |Scalar(c)| :: b[i] == Scalar(c)[i];
    if 0x800 <= n { HigherDigits(n); }
  }

  function ReadUtf8(b: Bytes): seq<nat> {
    var first := ReadScalar(b);
    if first.1 == 0 || first.1 > |b| then [] else [first.0] + ReadUtf8(b[first.1..])
  }

  function Scalars(text: string): seq<nat> {
    seq(|text|, i requires 0 <= i < |text| => text[i] as int)
  }

  lemma ReadFirst(c: char, rest: Bytes)
    ensures ReadUtf8(Scalar(c) + rest) == [c as int] + ReadUtf8(rest)
  {
    hide ReadScalar;
    ScalarRoundTrip(c, rest);
    hide Scalar;
    assert (Scalar(c) + rest)[|Scalar(c)|..] == rest;
  }

  lemma {:induction false} Utf8RoundTrip(text: string)
    ensures ReadUtf8(Utf8(text)) == Scalars(text)
  {
    if text == "" {
      assert ReadUtf8([]) == [];
    } else {
      hide ReadUtf8, Scalar;
      ReadFirst(text[0], Utf8(text[1..]));
      Utf8RoundTrip(text[1..]);
      assert Scalars(text) == [text[0] as int] + Scalars(text[1..]);
    }
  }

  lemma ScalarDelimits(c: char, d: char, x: Bytes, y: Bytes)
    requires Scalar(c) + x == Scalar(d) + y
    ensures c == d && x == y
  {
    assert (Scalar(c) + x)[0] == Scalar(c)[0] && (Scalar(d) + y)[0] == Scalar(d)[0];
    assert |Scalar(c)| == |Scalar(d)|;
    SameLengthPrefix(Scalar(c), Scalar(d), x, y);
    ScalarInjective(c as int, d as int);
  }

  lemma Digit(n: nat, m: nat)
    ensures n / 0x40 == m / 0x40 && n % 0x40 == m % 0x40 ==> n == m
  {
  }

  lemma HigherDigits(n: nat)
    ensures n / 0x1000 == n / 0x40 / 0x40
    ensures n / 0x4_0000 == n / 0x1000 / 0x40
  {
  }

  /** The digits of a number in base 64 determine it. */
  lemma ScalarInjective(n: nat, m: nat)
    ensures n / 0x40 == m / 0x40 && n % 0x40 == m % 0x40 ==> n == m
    ensures n / 0x1000 == m / 0x1000 && n / 0x40 % 0x40 == m / 0x40 % 0x40 ==> n / 0x40 == m / 0x40
    ensures n / 0x4_0000 == m / 0x4_0000 && n / 0x1000 % 0x40 == m / 0x1000 % 0x40 ==> n / 0x1000 == m / 0x1000
  {
    HigherDigits(n);
    HigherDigits(m);
    Digit(n, m);
    Digit(n / 0x40, m / 0x40);
    Digit(n / 0x1000, m / 0x1000);
  }

  lemma {:induction false} Utf8Injective(a: string, b: string)
    requires Utf8(a) == Utf8(b)
    ensures a == b
  {
    if a != "" && b != "" {
      ScalarDelimits(a[0], b[0], Utf8(a[1..]), Utf8(b[1..]));
      Utf8Injective(a[1..], b[1..]);
      assert a == [a[0]] + a[1..] && b == [b[0]] + b[1..];
    }
  }

  /** Length-prefixed UTF-8. */
  function Text(text: string): Bytes {
    Length(|Utf8(text)|) + Utf8(text)
  }

  lemma TextDelimits(a: string, b: string, x: Bytes, y: Bytes)
    requires |Text(a)| < U64_LIMIT && |Text(b)| < U64_LIMIT && Text(a) + x == Text(b) + y
    ensures a == b && x == y
  {
    hide Length, Utf8;
    assert Text(a) + x == Length(|Utf8(a)|) + (Utf8(a) + x);
    assert Text(b) + y == Length(|Utf8(b)|) + (Utf8(b) + y);
    SameLengthPrefix(Length(|Utf8(a)|), Length(|Utf8(b)|), Utf8(a) + x, Utf8(b) + y);
    LengthInjective(|Utf8(a)|, |Utf8(b)|);
    SameLengthPrefix(Utf8(a), Utf8(b), x, y);
    Utf8Injective(a, b);
  }
}
