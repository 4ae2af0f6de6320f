/** Byte strings, big-endian integers and UTF-8 validity. */
module Bytes {
  type Byte = b: int | 0 <= b < 0x100

  type ByteString = seq<Byte>

  /** Text is modelled by its UTF-8 encoding. */
  type Utf8Text = seq<Byte>

  function Pow256(k: nat): (r: nat)
    ensures r >= 1
  {
    if k == 0 then 1 else 0x100 * Pow256(k - 1)
  }

  /** `n` in `k` bytes, most significant first. */
  function BigEndian(n: nat, k: nat): (r: ByteString)
    requires n < Pow256(k)
    ensures |r| == k
    ensures FromBigEndian(r) == n
  {
    if k == 0 then [] else BigEndian(n / 0x100, k - 1) + [n % 0x100]
  }

  function FromBigEndian(b: ByteString): (n: nat)
    ensures n < Pow256(|b|)
  {
    if b == [] then 0 else 0x100 * FromBigEndian(b[..|b| - 1]) + b[|b| - 1]
  }

  /** Reading a fixed-width integer and writing it back restores the bytes. */
  lemma {:induction false} BigEndianOfFrom(b: ByteString)
    ensures BigEndian(FromBigEndian(b), |b|) == b
  {
    if b != [] {
      var n := FromBigEndian(b);
      assert n / 0x100 == FromBigEndian(b[..|b| - 1]) && n % 0x100 == b[|b| - 1];
      BigEndianOfFrom(b[..|b| - 1]);
    }
  }

  lemma Pow256Values()
    ensures Pow256(0) == 1 && Pow256(1) == 0x100 && Pow256(2) == 0x1_0000
    ensures Pow256(4) == 0x1_0000_0000
    ensures Pow256(8) == 0x1_0000_0000_0000_0000
  {
    assert Pow256(3) == 0x100_0000;
    assert Pow256(5) == 0x100_0000_0000;
    assert Pow256(6) == 0x1_0000_0000_0000;
    assert Pow256(7) == 0x100_0000_0000_0000;
  }

  /** The first byte counts for most: it is the quotient by its place value, and the others are the remainder. */
  lemma {:induction false} MostSignificantFirst(b: ByteString)
    requires b != []
    ensures FromBigEndian(b) == b[0] * Pow256(|b| - 1) + FromBigEndian(b[1..])
    ensures b[0] == FromBigEndian(b) / Pow256(|b| - 1)
    ensures FromBigEndian(b[1..]) == FromBigEndian(b) % Pow256(|b| - 1)
  {
    var n := |b| - 1;
    if n > 0 {
      MostSignificantFirst(b[..n]);
      assert b[..n][1..] == b[1..][..n - 1];
      assert b[1..][n - 1] == b[n];
      Rearranged(b[0], Pow256(n - 1));
    }
    QuotientAndRemainder(b[0], Pow256(n), FromBigEndian(b[1..]));
  }

  lemma Rearranged(a: nat, p: nat)
    ensures 0x100 * (a * p) == a * (0x100 * p)
  {
  }

  lemma QuotientAndRemainder(q: nat, p: nat, r: nat)
    requires r < p
    ensures (q * p + r) / p == q && (q * p + r) % p == r
  {
    var n := q * p + r;
    var d := n / p - q;
    DivisionSplits(n, p);
    Distributes(n / p, q, p);
    if d >= 1 {
      AtLeastOnce(d, p);
    } else if d <= -1 {
      AtLeastOnce(-d, p);
      Distributes(0, d, p);
    }
  }

  lemma DivisionSplits(n: nat, p: nat)
    requires p > 0
    ensures n == (n / p) * p + n % p && 0 <= n % p < p
  {
  }

  lemma Distributes(a: int, b: int, p: int)
    ensures (a - b) * p == a * p - b * p
  {
  }

  lemma AtLeastOnce(d: int, p: int)
    requires d >= 1 && p >= 0
    ensures d * p >= p
  {
    Distributes(d, 1, p);
    assert (d - 1) * p >= 0;
  }

  /** The bytes of the fixed widths, by division. */
  lemma BigEndianDigits(n: nat)
    ensures n < 0x1_0000 ==> n < Pow256(2) && BigEndian(n, 2) == [n / 0x100, n % 0x100]
    ensures n < 0x1_0000_0000 ==> n < Pow256(4) && BigEndian(n, 4) == [n / 0x100_0000] + Low24(n)
    ensures n < 0x1_0000_0000_0000_0000 ==>
      n < Pow256(8) &&
      BigEndian(n, 8) ==
        [n / 0x100_0000_0000_0000, n / 0x1_0000_0000_0000 % 0x100, n / 0x100_0000_0000 % 0x100,
         n / 0x1_0000_0000 % 0x100, n / 0x100_0000 % 0x100] + Low24(n)
  {
    Pow256Values();
    if n < 0x1_0000 {
      TwoDigits(n);
    }
    if n < 0x1_0000_0000 {
      FourDigits(n);
    }
    if n < 0x1_0000_0000_0000_0000 {
      EightDigits(n);
    }
  }

  /** The last three bytes of a number. */
  function Low24(n: nat): ByteString {
    [n / 0x1_0000 % 0x100, n / 0x100 % 0x100, n % 0x100]
  }

  lemma OneDigit(n: nat)
    requires n < Pow256(1)
    ensures BigEndian(n, 1) == [n]
  {
    Pow256Values();
    assert BigEndian(n / 0x100, 0) == [];
  }

  lemma TwoDigits(n: nat)
    requires n < Pow256(2)
    ensures BigEndian(n, 2) == [n / 0x100, n % 0x100]
  {
    Pow256Values();
    OneDigit(n / 0x100);
  }

  lemma FourDigits(n: nat)
    requires n < Pow256(4)
    ensures BigEndian(n, 4) == [n / 0x100_0000] + Low24(n)
  {
    Pow256Values();
    assert n / 0x100 / 0x100 == n / 0x1_0000;
    assert BigEndian(n / 0x100, 3) == BigEndian(n / 0x1_0000, 2) + [n / 0x100 % 0x100];
    TwoDigits(n / 0x1_0000);
  }

  lemma LastDigit(n: nat, k: nat)
    requires k > 0 && n < Pow256(k)
    ensures n / 0x100 < Pow256(k - 1) && BigEndian(n, k) == BigEndian(n / 0x100, k - 1) + [n % 0x100]
  {
  }

  lemma EightDigits(n: nat)
    requires n < Pow256(8)
    ensures
      BigEndian(n, 8) ==
        [n / 0x100_0000_0000_0000, n / 0x1_0000_0000_0000 % 0x100, n / 0x100_0000_0000 % 0x100,
         n / 0x1_0000_0000 % 0x100, n / 0x100_0000 % 0x100] + Low24(n)
  {
    var a := n / 0x100;
    var b := a / 0x100;
    var c := b / 0x100;
    var d := c / 0x100;
    LastDigit(n, 8);
    LastDigit(a, 7);
    LastDigit(b, 6);
    LastDigit(c, 5);
    FourDigits(d);
    hide BigEndian, Pow256;
    Quotients(n);
  }

  lemma Quotients(n: nat)
    ensures n / 0x100 / 0x100 == n / 0x1_0000 && n / 0x1_0000 / 0x100 == n / 0x100_0000
    ensures n / 0x100_0000 / 0x100 == n / 0x1_0000_0000
    ensures n / 0x1_0000_0000 / 0x100 == n / 0x100_0000_0000
    ensures n / 0x1_0000_0000 / 0x1_0000 == n / 0x1_0000_0000_0000
    ensures n / 0x1_0000_0000 / 0x100_0000 == n / 0x100_0000_0000_0000
  {
  }

  predicate Continuation(b: Byte) {
    0x80 <= b < 0xC0
  }

  /** The byte strings that strict UTF-8 decoding accepts. */
  predicate Utf8(b: ByteString) {
    b == [] ||
    if b[0] < 0x80 then
      Utf8(b[1..])
    else if 0xC2 <= b[0] < 0xE0 then
      |b| >= 2 && Continuation(b[1]) && Utf8(b[2..])
    else if 0xE0 <= b[0] < 0xF0 then
      && |b| >= 3 && Continuation(b[1]) && Continuation(b[2])
      && (b[0] == 0xE0 ==> b[1] >= 0xA0)
      && (b[0] == 0xED ==> b[1] < 0xA0)
      && Utf8(b[3..])
    else if 0xF0 <= b[0] < 0xF5 then
      && |b| >= 4 && Continuation(b[1]) && Continuation(b[2]) && Continuation(b[3])
      && (b[0] == 0xF0 ==> b[1] >= 0x90)
      && (b[0] == 0xF4 ==> b[1] < 0x90)
      && Utf8(b[4..])
    else
      false
  }

  function Flatten(parts: seq<ByteString>): ByteString {
    if parts == [] then [] else parts[0] + Flatten(parts[1..])
  }

  lemma {:induction false} FlattenConcat(a: seq<ByteString>, b: seq<ByteString>)
    ensures Flatten(a + b) == Flatten(a) + Flatten(b)
  {
    if a == [] {
      assert a + b == b;
    } else {
      assert (a + b)[1..] == a[1..] + b;
      FlattenConcat(a[1..], b);
    }
  }

  lemma FlattenSnoc(a: seq<ByteString>, x: ByteString)
    ensures Flatten(a + [x]) == Flatten(a) + x
  {
    FlattenConcat(a, [x]);
    assert [x][1..] == [];
  }
}
