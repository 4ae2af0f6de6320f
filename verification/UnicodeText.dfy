/** Valid text is exactly the encoding of a sequence of Unicode scalar values (section 3 of RFC 3629). */
module UnicodeText {
  import opened Bytes

  type Scalar = n: int | 0 <= n < 0xD800 || 0xE000 <= n < 0x11_0000

  function Utf8Of(c: Scalar): ByteString {
    if c < 0x80 then [c]
    else if c < 0x800 then [0xC0 + c / 64, 0x80 + c % 64]
    else if c < 0x1_0000 then [0xE0 + c / 4096, 0x80 + c / 64 % 64, 0x80 + c % 64]
    else [0xF0 + c / 262144, 0x80 + c / 4096 % 64, 0x80 + c / 64 % 64, 0x80 + c % 64]
  }

  function TextOf(scalars: seq<Scalar>): Utf8Text {
    if scalars == [] then [] else Utf8Of(scalars[0]) + TextOf(scalars[1..])
  }

  lemma OneScalar(c: Scalar, rest: ByteString)
    ensures Utf8(Utf8Of(c) + rest) <==> Utf8(rest)
  {
    var b := Utf8Of(c) + rest;
    assert b[|Utf8Of(c)|..] == rest;
  }

  lemma {:induction false} TextIsValid(scalars: seq<Scalar>)
    ensures Utf8(TextOf(scalars))
  {
    if scalars != [] {
      TextIsValid(scalars[1..]);
      OneScalar(scalars[0], TextOf(scalars[1..]));
    }
  }

  lemma TwoBytes(x: int, y: int)
    requires 2 <= x < 32 && 0 <= y < 64
    ensures Utf8Of(x * 64 + y) == [0xC0 + x, 0x80 + y]
  {
  }

  lemma ThreeBytes(x: int, y: int, z: int)
    requires 0 <= x < 16 && 0 <= y < 64 && 0 <= z < 64 && (x == 0 ==> y >= 32) && (x == 13 ==> y < 32)
    ensures
      var c := x * 4096 + y * 64 + z;
      (0 <= c < 0xD800 || 0xE000 <= c < 0x11_0000) && Utf8Of(c) == [0xE0 + x, 0x80 + y, 0x80 + z]
  {
    var c := x * 4096 + y * 64 + z;
    assert c / 64 == x * 64 + y && c / 4096 == x;
  }

  lemma FourBytes(x: int, y: int, z: int, w: int)
    requires 0 <= x < 5 && 0 <= y < 64 && 0 <= z < 64 && 0 <= w < 64 && (x == 0 ==> y >= 16) && (x == 4 ==> y < 16)
    ensures
      var c := x * 262144 + y * 4096 + z * 64 + w;
      0x1_0000 <= c < 0x11_0000 && Utf8Of(c) == [0xF0 + x, 0x80 + y, 0x80 + z, 0x80 + w]
  {
    var c := x * 262144 + y * 4096 + z * 64 + w;
    assert c / 64 == x * 4096 + y * 64 + z && c / 4096 == x * 64 + y && c / 262144 == x;
  }

  /** How many bytes the scalar value at the front takes, by the first of them. */
  function FrontLength(first: Byte): nat {
    if first < 0x80 then 1 else if first < 0xE0 then 2 else if first < 0xF0 then 3 else 4
  }

  lemma BehindFront(b: ByteString)
    requires Utf8(b) && b != []
    ensures FrontLength(b[0]) <= |b| && Utf8(b[FrontLength(b[0])..])
  {
  }

  lemma TwoByteFront(b: ByteString) returns (c: Scalar)
    requires Utf8(b) && b != [] && 0x80 <= b[0] < 0xE0
    ensures |b| >= 2 && Utf8Of(c) == b[..2]
  {
    hide Utf8Of;
    var x, y := b[0] as int - 0xC0, b[1] as int - 0x80;
    TwoBytes(x, y);
    c := x * 64 + y;
  }

  lemma ThreeByteFront(b: ByteString) returns (c: Scalar)
    requires Utf8(b) && b != [] && 0xE0 <= b[0] < 0xF0
    ensures |b| >= 3 && Utf8Of(c) == b[..3]
  {
    hide Utf8Of;
    var x, y, z := b[0] as int - 0xE0, b[1] as int - 0x80, b[2] as int - 0x80;
    ThreeBytes(x, y, z);
    c := x * 4096 + y * 64 + z;
  }

  lemma FourByteFront(b: ByteString) returns (c: Scalar)
    requires Utf8(b) && b != [] && 0xF0 <= b[0]
    ensures |b| >= 4 && Utf8Of(c) == b[..4]
  {
    hide Utf8Of;
    var x, y, z, w := b[0] as int - 0xF0, b[1] as int - 0x80, b[2] as int - 0x80, b[3] as int - 0x80;
    FourBytes(x, y, z, w);
    c := x * 262144 + y * 4096 + z * 64 + w;
  }

  /** The scalar value at the front of a valid text. */
  lemma FrontScalar(b: ByteString) returns (c: Scalar)
    requires Utf8(b) && b != []
    ensures FrontLength(b[0]) <= |b| && Utf8Of(c) == b[..FrontLength(b[0])]
  {
    hide Utf8;
    if b[0] < 0x80 {
      c := b[0];
    } else if b[0] < 0xE0 {
      c := TwoByteFront(b);
    } else if b[0] < 0xF0 {
      c := ThreeByteFront(b);
    } else {
      c := FourByteFront(b);
    }
  }

  /** The scalar value at the front of a valid text, and the bytes behind it. */
  lemma FirstScalar(b: ByteString) returns (c: Scalar, rest: ByteString)
    requires Utf8(b) && b != []
    ensures b == Utf8Of(c) + rest && Utf8(rest)
  {
    hide Utf8, Utf8Of;
    BehindFront(b);
    c := FrontScalar(b);
    rest := b[FrontLength(b[0])..];
  }

  lemma {:induction false} ValidIsText(b: ByteString) returns (scalars: seq<Scalar>)
    requires Utf8(b)
    ensures TextOf(scalars) == b
    decreases |b|
  {
    scalars := [];
    if b != [] {
      var c, rest := FirstScalar(b);
      var tail := ValidIsText(rest);
      scalars := [c] + tail;
    }
  }

  lemma ValidIffText(b: ByteString)
    ensures Utf8(b) <==> exists scalars :: TextOf(scalars) == b
  {
    if Utf8(b) {
      var scalars := ValidIsText(b);
    }
    if scalars :| TextOf(scalars) == b {
      TextIsValid(scalars);
    }
  }
}
