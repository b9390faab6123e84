/** Bytes and the fixed-width integer encodings the wire formats use. */
module Bytes {
  type byte = b: int | 0 <= b < 256

  const U16: nat := 0x1_0000
  const U24: nat := 0x100_0000
  const U32: nat := 0x1_0000_0000
  const U64: nat := 0x1_0000_0000_0000_0000

  /** The low `n` bytes of `value`, most significant first. */
  function BigEndian(value: nat, n: nat): (s: seq<byte>)
    ensures |s| == n
  {
    if n == 0 then [] else BigEndian(value / 256, n - 1) + [value % 256]
  }

  function FromBigEndian(s: seq<byte>): nat {
    if s == [] then 0 else FromBigEndian(s[..|s| - 1]) * 256 + s[|s| - 1]
  }

  /** The low `n` bytes of `value`, least significant first. */
  function LittleEndian(value: nat, n: nat): (s: seq<byte>)
    ensures |s| == n
  {
    if n == 0 then [] else [value % 256] + LittleEndian(value / 256, n - 1)
  }

  function FromLittleEndian(s: seq<byte>): nat {
    if s == [] then 0 else s[0] + 256 * FromLittleEndian(s[1..])
  }

  function Power256(n: nat): (p: nat)
    ensures p > 0
  {
    if n == 0 then 1 else 256 * Power256(n - 1)
  }

  function Power2(n: nat): (p: nat)
    ensures p > 0
  {
    if n == 0 then 1 else 2 * Power2(n - 1)
  }

  lemma Widths()
    ensures Power256(2) == U16 && Power256(3) == U24 && Power256(4) == U32 && Power256(8) == U64
  {
    assert Power256(4) == 256 * Power256(3);
    assert Power256(6) == 256 * Power256(5);
    assert Power256(8) == 256 * Power256(7);
  }

  lemma DivModStep(value: nat, p: nat)
    requires p > 0
    ensures value % (256 * p) == (value / 256) % p * 256 + value % 256
  {
    var q, r := value / 256 / p, value / 256 % p;
    assert value / 256 == p * q + r;
    assert value == 256 * (p * q + r) + value % 256;
    assert value == 256 * p * q + (r * 256 + value % 256);
    assert r * 256 + value % 256 < 256 * p;
    ModUnique(value, 256 * p, q, r * 256 + value % 256);
  }

  lemma ModUnique(value: nat, d: nat, q: nat, r: nat)
    requires d > 0 && value == d * q + r && r < d
    ensures value % d == r && value / d == q
  {
    var q', r' := value / d, value % d;
    assert value == d * q' + r';
    if q < q' {
      MulStrict(d, q, q', r, r');
    } else if q' < q {
      MulStrict(d, q', q, r', r);
    }
  }

  lemma SmallModulo(value: nat, d: nat)
    requires value < d
    ensures value % d == value
  {
    assert d * 0 == 0;
    ModUnique(value, d, 0, value);
  }

  lemma MulStrict(d: nat, a: nat, b: nat, r: nat, r': nat)
    requires r < d && a < b
    ensures d * a + r < d * b + r'
    decreases b
  {
    assert d * b == d * (b - 1) + d;
    if a < b - 1 {
      MulStrict(d, a, b - 1, r, 0);
    }
  }

  /** Decoding the low `n` bytes gives the value modulo the width. */
  lemma {:induction false} BigEndianRoundTrip(value: nat, n: nat)
    ensures FromBigEndian(BigEndian(value, n)) == value % Power256(n)
  {
    if n > 0 {
      BigEndianRoundTrip(value / 256, n - 1);
      DivModStep(value, Power256(n - 1));
      assert BigEndian(value, n)[..n - 1] == BigEndian(value / 256, n - 1);
    }
  }

  lemma {:induction false} LittleEndianRoundTrip(value: nat, n: nat)
    ensures FromLittleEndian(LittleEndian(value, n)) == value % Power256(n)
  {
    if n > 0 {
      LittleEndianRoundTrip(value / 256, n - 1);
      DivModStep(value, Power256(n - 1));
      assert LittleEndian(value, n)[1..] == LittleEndian(value / 256, n - 1);
    }
  }

  lemma {:induction false} BigEndianBound(s: seq<byte>)
    ensures FromBigEndian(s) < Power256(|s|)
  {
    if s != [] {
      BigEndianBound(s[..|s| - 1]);
    }
  }

  /** Only the value modulo the width is encoded. */
  lemma {:induction false} BigEndianModulo(value: nat, n: nat)
    ensures BigEndian(value % Power256(n), n) == BigEndian(value, n)
  {
    if n > 0 {
      var low := value % Power256(n);
      DivModStep(value, Power256(n - 1));
      assert low / 256 == (value / 256) % Power256(n - 1) && low % 256 == value % 256;
      BigEndianModulo(value / 256, n - 1);
    }
  }

  lemma {:induction false} LittleEndianModulo(value: nat, n: nat)
    ensures LittleEndian(value % Power256(n), n) == LittleEndian(value, n)
  {
    if n > 0 {
      var low := value % Power256(n);
      DivModStep(value, Power256(n - 1));
      assert low / 256 == (value / 256) % Power256(n - 1) && low % 256 == value % 256;
      LittleEndianModulo(value / 256, n - 1);
    }
  }

  // ---------------------------------------------------------------- the same, byte by byte

  /** 24 and 32 bits, written out. */
  function Big3(n: nat): seq<byte> {
    [n / 0x1_0000 % 256, n / 256 % 256, n % 256]
  }

  function Big4(n: nat): seq<byte> {
    [n / 0x100_0000 % 256, n / 0x1_0000 % 256, n / 256 % 256, n % 256]
  }

  function Little4(n: nat): (s: seq<byte>)
    ensures |s| == 4
  {
    [n % 256, n / 256 % 256, n / 0x1_0000 % 256, n / 0x100_0000 % 256]
  }

  lemma WrittenOut(n: nat)
    ensures BigEndian(n, 3) == Big3(n) && BigEndian(n, 4) == Big4(n) && LittleEndian(n, 4) == Little4(n)
  {
    var a, b, c := n / 256, n / 256 / 256, n / 256 / 256 / 256;
    assert b == n / 0x1_0000 && c == n / 0x100_0000;
    assert BigEndian(b, 1) == [b % 256] && BigEndian(a, 2) == [b % 256, a % 256];
    assert BigEndian(c, 1) == [c % 256] && BigEndian(b, 2) == [c % 256, b % 256];
    assert BigEndian(a, 3) == [c % 256, b % 256, a % 256];
    assert LittleEndian(c, 1) == [c % 256] && LittleEndian(b, 2) == [b % 256, c % 256];
    assert LittleEndian(a, 3) == [a % 256, b % 256, c % 256];
  }

  /** Reading the written-out bytes gives the number modulo their width. */
  lemma WrittenOutRead(n: nat)
    ensures FromBigEndian(Big3(n)) == n % U24 && FromBigEndian(Big4(n)) == n % U32
    ensures FromLittleEndian(Little4(n)) == n % U32
  {
    WrittenOut(n);
    Widths();
    BigEndianRoundTrip(n, 3);
    BigEndianRoundTrip(n, 4);
    LittleEndianRoundTrip(n, 4);
    hide BigEndian, LittleEndian, FromBigEndian, FromLittleEndian, Big3, Big4, Little4;
  }
}
