/** Machine integers of the wire: bytes, 32-bit integers and their big-endian form. */
module Bytes {
  type byte = x: int | 0 <= x < 0x100
  type int32 = x: int | -0x8000_0000 <= x < 0x8000_0000
  type uint32 = x: int | 0 <= x < 0x1_0000_0000

  /** Conversion to `uint32_t` and to `int`, in two's complement. */
  function ToUint32(x: int): (r: uint32)
    ensures (r - x) % 0x1_0000_0000 == 0
  {
    x % 0x1_0000_0000
  }

  function ToInt32(x: int): (r: int32)
    ensures (r - x) % 0x1_0000_0000 == 0
  {
    var u := x % 0x1_0000_0000;
    if u < 0x8000_0000 then u else u - 0x1_0000_0000
  }

  lemma ToInt32Unique(x: int, y: int32)
    requires (x - y) % 0x1_0000_0000 == 0
    ensures ToInt32(x) == y
  {
  }

  /** The four bytes of `x`, most significant first; `/` is an arithmetic right shift here. */
  function IntBytes(x: int): (b: seq<byte>)
    ensures |b| == 4
  {
    [(x / 0x100_0000) % 0x100, (x / 0x1_0000) % 0x100, (x / 0x100) % 0x100, x % 0x100]
  }

  /** `ret = (ret << 8) + b`, four times, without wrap-around. */
  function Unsigned(b: seq<byte>): (r: uint32)
    requires |b| == 4
  {
    var b0: int, b1: int, b2: int, b3: int := b[0], b[1], b[2], b[3];
    ((b0 * 0x100 + b1) * 0x100 + b2) * 0x100 + b3
  }

  lemma UnsignedOfBytes(x: int)
    ensures Unsigned(IntBytes(x)) == ToUint32(x)
  {
    var q1, q2, q3 := x / 0x100, x / 0x1_0000, x / 0x100_0000;
    assert q2 == q1 / 0x100 && q3 == q2 / 0x100;
    assert x == q1 * 0x100 + x % 0x100;
    assert q1 == q2 * 0x100 + q1 % 0x100;
    assert q2 == q3 * 0x100 + q2 % 0x100;
    assert x == ((q3 * 0x100 + q2 % 0x100) * 0x100 + q1 % 0x100) * 0x100 + x % 0x100;
    assert q3 == (q3 / 0x100) * 0x100 + q3 % 0x100;
  }

  lemma BytesOfUnsigned(b: seq<byte>)
    requires |b| == 4
    ensures IntBytes(Unsigned(b)) == b
    ensures IntBytes(ToInt32(Unsigned(b))) == b
  {
    var x: int := Unsigned(b);
    var b0: int, b1: int, b2: int, b3: int := b[0], b[1], b[2], b[3];
    assert x == ((b0 * 0x100 + b1) * 0x100 + b2) * 0x100 + b3;
    assert x / 0x100 == (b0 * 0x100 + b1) * 0x100 + b2;
    assert x / 0x1_0000 == b0 * 0x100 + b1;
    assert x / 0x100_0000 == b0;
    assert IntBytes(x) == b;
    BytesOfWrapped(x);
  }

  lemma BytesOfWrapped(x: int)
    requires 0 <= x < 0x1_0000_0000
    ensures IntBytes(ToInt32(x)) == IntBytes(x)
  {
    hide IntBytes;
    assert ToInt32(x) == x || ToInt32(x) == x - 0x1_0000_0000;
    BytesOfShifted(x);
  }

  /** The bytes of a value do not tell it from the same value wrapped around. */
  lemma BytesOfShifted(x: int)
    ensures IntBytes(x - 0x1_0000_0000) == IntBytes(x)
  {
    Quotients(x);
    LowByteOfShifted(x, 0x100_0000);
    LowByteOfShifted(x / 0x100, 0x1_0000);
    LowByteOfShifted(x / 0x1_0000, 0x100);
    LowByteOfShifted(x / 0x100_0000, 1);
  }

  lemma LowByteOfShifted(q: int, k: int)
    ensures (q - k * 0x100) % 0x100 == q % 0x100
  {
    var b := q % 0x100;
    assert q - k * 0x100 == (q / 0x100 - k) * 0x100 + b;
  }

  lemma Quotients(x: int)
    ensures (x - 0x1_0000_0000) / 0x100 == x / 0x100 - 0x100_0000
    ensures (x - 0x1_0000_0000) / 0x1_0000 == x / 0x1_0000 - 0x1_0000
    ensures (x - 0x1_0000_0000) / 0x100_0000 == x / 0x100_0000 - 0x100
  {
  }

  /** Bytes to int and back are inverse in both directions. */
  lemma IntBytesRoundTrip(x: int32)
    ensures ToInt32(Unsigned(IntBytes(x))) == x
  {
    UnsignedOfBytes(x);
    ToInt32Unique(Unsigned(IntBytes(x)), x);
  }

  lemma UintBytesRoundTrip(x: uint32)
    ensures Unsigned(IntBytes(x)) == x
  {
    UnsignedOfBytes(x);
  }

  // ---- the helper routines ----

  method IntToByte(x: int32) returns (ret: array<byte>)
    ensures fresh(ret) && ret[..] == IntBytes(x)
  {
    ret := new byte[4];
    ret[3] := x % 0x100;
    ret[2] := (x / 0x100) % 0x100;
    ret[1] := (x / 0x1_0000) % 0x100;
    ret[0] := (x / 0x100_0000) % 0x100;
  }

  method UintToByte(x: uint32) returns (ret: array<byte>)
    ensures fresh(ret) && ret[..] == IntBytes(x)
  {
    ret := new byte[4];
    ret[3] := x % 0x100;
    ret[2] := (x / 0x100) % 0x100;
    ret[1] := (x / 0x1_0000) % 0x100;
    ret[0] := (x / 0x100_0000) % 0x100;
  }

  lemma SameRemainder(x: int, y: int, k: int)
    requires x == y + k * 0x1_0000_0000
    ensures ToUint32(x) == ToUint32(y) && ToInt32(x) == ToInt32(y)
  {
  }

  /** Wrapping around at each step or only at the end comes to the same. */
  lemma WrapStep(ret: int, x: int, b: byte)
    requires ret == ToInt32(x) || ret == ToUint32(x)
    ensures ToInt32(ret * 0x100 + b) == ToInt32(x * 0x100 + b)
    ensures ToUint32(ret * 0x100 + b) == ToUint32(x * 0x100 + b)
  {
    var k := (ret - x) / 0x1_0000_0000;
    SameRemainder(ret * 0x100 + b, x * 0x100 + b, k * 0x100);
  }

  /** Reads a signed integer; every step wraps around in 32 bits. */
  method ByteToInt(x: seq<byte>) returns (ret: int32)
    requires |x| >= 4
    ensures ret == ToInt32(Unsigned(x[..4]))
    ensures IntBytes(ret) == x[..4]
  {
    hide ToInt32, ToUint32;
    var b0: int, b1: int, b2: int, b3: int := x[0], x[1], x[2], x[3];
    ret := ToInt32(b0);
    WrapStep(ret, b0, b1);
    ret := ToInt32(ret * 0x100 + b1);
    WrapStep(ret, b0 * 0x100 + b1, b2);
    ret := ToInt32(ret * 0x100 + b2);
    WrapStep(ret, (b0 * 0x100 + b1) * 0x100 + b2, b3);
    ret := ToInt32(ret * 0x100 + b3);
    BytesOfUnsigned(x[..4]);
  }

  method ByteToUint(x: seq<byte>) returns (ret: uint32)
    requires |x| >= 4
    ensures ret == Unsigned(x[..4])
    ensures IntBytes(ret) == x[..4]
  {
    hide ToInt32, ToUint32;
    var b0: int, b1: int, b2: int, b3: int := x[0], x[1], x[2], x[3];
    ret := ToUint32(b0);
    WrapStep(ret, b0, b1);
    ret := ToUint32(ret * 0x100 + b1);
    WrapStep(ret, b0 * 0x100 + b1, b2);
    ret := ToUint32(ret * 0x100 + b2);
    WrapStep(ret, (b0 * 0x100 + b1) * 0x100 + b2, b3);
    ret := ToUint32(ret * 0x100 + b3);
    InRange(Unsigned(x[..4]));
    BytesOfUnsigned(x[..4]);
  }

  lemma InRange(x: uint32)
    ensures ToUint32(x) == x
  {
  }
}
