/** Base 128 varints and length-delimited records of the Protocol Buffers wire format. */
module Varint {
  import opened Basics
  import opened Bytes

  const TWO_TO_64: int := 0x1_0000_0000_0000_0000
  const INT_MAX: int := 0x7fff_ffff

  /** A signed integer as the 64-bit pattern that is written for it. */
  function Pattern(x: int): (v: nat)
    ensures v < TWO_TO_64
  {
    x % TWO_TO_64
  }

  /** A 64-bit pattern read back as `int64`. */
  function ToInt64(v: nat): int {
    var u := v % TWO_TO_64;
    if u < 0x8000_0000_0000_0000 then u else u - TWO_TO_64
  }

  predicate FitsInt32(x: int) { -0x8000_0000 <= x < 0x8000_0000 }

  predicate FitsInt64(x: int) { -0x8000_0000_0000_0000 <= x < 0x8000_0000_0000_0000 }

  lemma PatternRoundTrip(x: int)
    ensures FitsInt64(x) ==> ToInt64(Pattern(x)) == x
    ensures FitsInt32(x) ==> ToInt32(Pattern(x)) == x
  {
    if FitsInt32(x) {
      ToInt32Unique(Pattern(x), x);
    }
  }

  /** Seven bits a byte, least significant first; the high bit says that more follow. */
  function VarintBytes(v: nat): (b: seq<byte>)
    ensures |b| >= 1
  {
    if v < 0x80 then [v] else [v % 0x80 + 0x80] + VarintBytes(v / 0x80)
  }

  /** The number of bytes a varint takes. */
  function VarintSize(v: nat): (n: nat) {
    if v < 0x80 then 1 else 1 + VarintSize(v / 0x80)
  }

  lemma {:induction false} VarintSizeIsLength(v: nat)
    ensures |VarintBytes(v)| == VarintSize(v)
  {
    if v < 0x80 {
    } else {
      VarintSizeIsLength(v / 0x80);
    }
  }

  function Pow128(k: nat): nat {
    if k == 0 then 1 else 0x80 * Pow128(k - 1)
  }

  lemma {:induction false} VarintSizeBound(v: nat, k: nat)
    requires 1 <= k && v < Pow128(k)
    ensures VarintSize(v) <= k
  {
    if v < 0x80 {
    } else {
      assert k >= 2 by {
        assert Pow128(1) == 0x80;
      }
      VarintSizeBound(v / 0x80, k - 1);
    }
  }

  lemma VarintFits(v: nat)
    ensures v < 0x1_0000_0000 ==> |VarintBytes(v)| <= 5
    ensures v < TWO_TO_64 ==> |VarintBytes(v)| <= 10
  {
    assert Pow128(5) == 0x8_0000_0000 by {
      assert Pow128(2) == 0x4000 && Pow128(3) == 0x20_0000 && Pow128(4) == 0x1000_0000;
    }
    assert Pow128(10) >= TWO_TO_64 by {
      assert Pow128(6) == 0x400_0000_0000 && Pow128(7) == 0x2_0000_0000_0000 && Pow128(8) == 0x100_0000_0000_0000;
    }
    VarintSizeIsLength(v);
    if v < 0x1_0000_0000 { VarintSizeBound(v, 5); }
    if v < TWO_TO_64 { VarintSizeBound(v, 10); }
  }

  // ---- reading ----

  /** A varint of at most `max` bytes at the front of `b`: its value and its length. */
  function RawVarint(b: seq<byte>, max: nat): (r: Option<(nat, nat)>)
    ensures r.Some? ==> 1 <= r.value.1 <= |b| && r.value.1 <= max
    decreases max
  {
    if b == [] || max == 0 then None
    else if b[0] < 0x80 then Some((b[0], 1))
    else
      match RawVarint(b[1..], max - 1)
      case None => None
      case Some((v, n)) => Some((b[0] - 0x80 + 0x80 * v, n + 1))
  }

  lemma {:induction false} RawVarintOfBytes(v: nat, rest: seq<byte>, max: nat)
    requires |VarintBytes(v)| <= max
    ensures RawVarint(VarintBytes(v) + rest, max) == Some((v, |VarintBytes(v)|))
    decreases max
  {
    var b := VarintBytes(v) + rest;
    if v < 0x80 {
    } else {
      assert b[1..] == VarintBytes(v / 0x80) + rest;
      RawVarintOfBytes(v / 0x80, rest, max - 1);
    }
  }

  /** At most ten bytes; bits beyond the 64th are discarded. */
  function ReadVarint(b: seq<byte>): (r: Option<(nat, nat)>)
    ensures r.Some? ==> r.value.0 < TWO_TO_64 && 1 <= r.value.1 <= |b|
  {
    match RawVarint(b, 10)
    case None => None
    case Some((v, n)) => Some((v % TWO_TO_64, n))
  }

  /** At most five bytes; bits beyond the 32nd are discarded. */
  function ReadTag(b: seq<byte>): (r: Option<(nat, nat)>)
    ensures r.Some? ==> 1 <= r.value.1 <= |b|
  {
    match RawVarint(b, 5)
    case None => None
    case Some((v, n)) => Some((v % 0x1_0000_0000, n))
  }

  lemma ReadVarintOfBytes(v: nat, rest: seq<byte>)
    requires v < TWO_TO_64
    ensures ReadVarint(VarintBytes(v) + rest) == Some((v, |VarintBytes(v)|))
    ensures (VarintBytes(v) + rest)[|VarintBytes(v)|..] == rest
  {
    hide VarintBytes, RawVarint;
    VarintFits(v);
    RawVarintOfBytes(v, rest, 10);
    assert v % TWO_TO_64 == v;
  }

  /** A tag below 128 is a single byte. */
  lemma ReadTagOfByte(tag: byte, rest: seq<byte>)
    requires tag < 0x80
    ensures ReadTag([tag] + rest) == Some((tag, 1))
    ensures ([tag] + rest)[1..] == rest
  {
  }

  // ---- length-delimited records ----

  function Sized(payload: seq<byte>): seq<byte> {
    VarintBytes(|payload|) + payload
  }

  /** The payload of a length-delimited record and what follows it. */
  function ReadSized(b: seq<byte>): (r: Option<(seq<byte>, seq<byte>)>)
    ensures r.Some? ==> |r.value.0| + |r.value.1| < |b| && r.value.1 == b[|b| - |r.value.1|..]
  {
    match RawVarint(b, 5)
    case None => None
    case Some((size, n)) =>
      if size > INT_MAX || n + size > |b| then None
      else Some((b[n..n + size], b[n + size..]))
  }

  lemma ReadSizedOfSized(payload: seq<byte>, rest: seq<byte>)
    requires |payload| <= INT_MAX
    ensures ReadSized(Sized(payload) + rest) == Some((payload, rest))
  {
    VarintFits(|payload|);
    RawVarintOfBytes(|payload|, payload + rest, 5);
    var b := Sized(payload) + rest;
    var n := |VarintBytes(|payload|)|;
    assert b == VarintBytes(|payload|) + (payload + rest);
    assert b[n..n + |payload|] == payload;
    assert b[n + |payload|..] == rest;
  }
}
