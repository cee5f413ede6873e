/** Where everything stands on the wire, in numbers: the header, the packet types, varints and
    the fields of the messages. */
module WireLayout {
  import opened Basics
  import opened Bytes
  import opened Messages
  import opened Framing
  import opened Varint
  import opened WireFormat
  import opened Packets

  /** Four bytes as an unsigned number, the most significant first. */
  function BigEndian(b: seq<byte>, at: nat): int
    requires at + 4 <= |b|
  {
    var b0: int, b1: int, b2: int, b3: int := b[at], b[at + 1], b[at + 2], b[at + 3];
    b0 * 0x100_0000 + b1 * 0x1_0000 + b2 * 0x100 + b3
  }

  lemma BytesAreBigEndian(x: int)
    ensures BigEndian(IntBytes(x), 0) == x % 0x1_0000_0000
  {
    UnsignedOfBytes(x);
    UnsignedIsBigEndian(IntBytes(x));
  }

  lemma UnsignedIsBigEndian(b: seq<byte>)
    requires |b| == 4
    ensures Unsigned(b) == BigEndian(b, 0)
  {
  }

  /** Bytes 0-3 of a header are the size, bytes 4-7 the type, bytes 8-11 the user id. */
  lemma HeaderLayout(h: Head)
    ensures |HeadBytes(h)| == 12
    ensures BigEndian(HeadBytes(h), 0) == h.packageSize % 0x1_0000_0000
    ensures BigEndian(HeadBytes(h), 4) == h.packageType % 0x1_0000_0000
    ensures BigEndian(HeadBytes(h), 8) == h.userid % 0x1_0000_0000
  {
    hide IntBytes;
    BytesAreBigEndian(h.packageSize);
    BytesAreBigEndian(h.packageType);
    BytesAreBigEndian(ToUint32(h.userid));
  }

  /** And they are read from there. */
  lemma HeaderRead(b: seq<byte>)
    requires |b| >= 12
    ensures (ParseHead(b).packageSize - BigEndian(b, 0)) % 0x1_0000_0000 == 0
    ensures (ParseHead(b).packageType - BigEndian(b, 4)) % 0x1_0000_0000 == 0
    ensures (ParseHead(b).userid - BigEndian(b, 8)) % 0x1_0000_0000 == 0
  {
    hide Unsigned, ToInt32;
    UnsignedIsBigEndian(b[..4]);
    UnsignedIsBigEndian(b[4..8]);
    UnsignedIsBigEndian(b[8..12]);
  }

  /** A header is accepted iff it announces 12 to 1048576 bytes and a type from 0 to 400. */
  lemma HeaderAccepted(h: Head)
    ensures CheckHeaderIsValid(h) <==> 12 <= h.packageSize <= 1048576 && 0 <= h.packageType <= 400
  {
  }

  /** The packet types that clients, gates and servers exchange. */
  const TYPES := {0, 1, 2, 3, 4, 5, 6, 7, 8, 9, 10, 11, 12, 50, 51, 70, 71, 72, 73, 74, 75,
                  100, 101, 102, 200, 201, 202, 203, 204, 400}

  /** A packet of any of these types is delivered, whatever its body and its user. */
  lemma EveryTypeIsDelivered(packageType: int32, userid: int32, body: seq<byte>)
    requires packageType in TYPES && 12 + |body| <= 1048576
    ensures var p := Packet(Head(12 + |body|, packageType, userid), body);
      Scan(Encode(p)) == Scanned([p], [], false)
  {
    var p := Packet(Head(12 + |body|, packageType, userid), body);
    assert 0 <= packageType <= 400;
    HeaderAccepted(p.head);
    hide Scan, Encode, CheckHeaderIsValid;
    FramingRoundTrip([p]);
    assert EncodeAll([p]) == Encode(p);
  }

  /** Frame, UserOperate and the two replay types have the bodies named after them. */
  lemma BodyTypes(f: Frame, m: UserOperate, r: GameReplay, packageType: int)
    ensures TypeFor(packageType, FramePayload(f)) <==> packageType == 70
    ensures TypeFor(packageType, OperatePayload(m)) <==> packageType == 71
    ensures TypeFor(packageType, ReplayPayload(r)) <==> packageType == 72 || packageType == 73
  {
  }

  // ---- varints ----

  /** Seven bits of each byte, the least significant first. */
  function Base128(b: seq<byte>): nat {
    if b == [] then 0
    else
      var first: int := b[0];
      first % 0x80 + 0x80 * Base128(b[1..])
  }

  /** All bytes but the last have their high bit set, and only those. */
  ghost predicate Marked(b: seq<byte>) {
    b != [] && forall i | 0 <= i < |b| :: b[i] >= 0x80 <==> i < |b| - 1
  }

  /** A varint is written in that form, with no more bytes than needed. */
  lemma {:induction false} VarintWritten(v: nat)
    ensures Base128(VarintBytes(v)) == v && Marked(VarintBytes(v))
    ensures |VarintBytes(v)| > 1 ==> VarintBytes(v)[|VarintBytes(v)| - 1] != 0
    decreases v
  {
    if v < 0x80 {
      assert VarintBytes(v)[1..] == [];
    } else {
      var rest := VarintBytes(v / 0x80);
      VarintWritten(v / 0x80);
      var b := VarintBytes(v);
      assert b[1..] == rest;
      assert forall i | 0 < i < |b| :: b[i] == rest[i - 1];
      if |rest| == 1 {
        assert rest == [v / 0x80];
      }
    }
  }

  /** And whatever has that form is read as that number. */
  lemma {:induction false} VarintRead(b: seq<byte>, rest: seq<byte>, max: nat)
    requires Marked(b) && |b| <= max
    ensures RawVarint(b + rest, max) == Some((Base128(b), |b|))
    decreases |b|
  {
    assert (b + rest)[1..] == b[1..] + rest;
    if |b| == 1 {
      assert b[1..] == [];
    } else {
      assert Marked(b[1..]) by {
        assert forall i | 0 <= i < |b| - 1 :: b[1..][i] == b[i + 1];
      }
      VarintRead(b[1..], rest, max - 1);
    }
  }

  // ---- fields ----

  /** A record of field `n` whose wire type is 0 (a varint) begins with 8n, one of type 2 (bytes
      with their size in front) with 8n + 2. */
  function Tag(n: nat, wireType: nat): nat {
    n * 8 + wireType
  }

  /** UserOperate: data is field 1, packed; the type is field 2 and the pid field 3. */
  lemma FieldsOfOperate(m: UserOperate)
    ensures OperateBytes(m) ==
            (if m.data == [] then [] else [Tag(1, 2)] + VarintBytes(|PackedBytes(m.data)|) + PackedBytes(m.data))
            + (if m.opt == 0 then [] else [Tag(2, 0)] + VarintBytes(m.opt % TWO_TO_64))
            + (if m.userpid == 0 then [] else [Tag(3, 0)] + VarintBytes(m.userpid % TWO_TO_64))
  {
    hide VarintBytes, PackedBytes;
    var packed := PackedBytes(m.data);
    assert [10] + (VarintBytes(|packed|) + packed) == [10] + VarintBytes(|packed|) + packed;
  }

  /** Packed values follow one another. */
  lemma {:induction false} PackedOneMore(data: seq<int>, x: int)
    ensures PackedBytes([]) == []
    ensures PackedBytes(data + [x]) == PackedBytes(data) + VarintBytes(x % TWO_TO_64)
    decreases |data|
  {
    hide VarintBytes;
    if data == [] {
      assert [] + [x] == [x] && [x][1..] == [];
      assert PackedBytes([x]) == VarintBytes(x % TWO_TO_64) + [];
    } else {
      var first := VarintBytes(Pattern(data[0]));
      PackedOneMore(data[1..], x);
      assert (data + [x])[0] == data[0] && (data + [x])[1..] == data[1..] + [x];
      assert first + (PackedBytes(data[1..]) + VarintBytes(x % TWO_TO_64))
          == first + PackedBytes(data[1..]) + VarintBytes(x % TWO_TO_64);
    }
  }

  /** Frame: the number is field 1, each operation a record of field 2, in order. */
  lemma FieldsOfFrame(f: Frame, op: UserOperate)
    ensures FrameBytes(Frame(f.frameId, [])) ==
            if f.frameId == 0 then [] else [Tag(1, 0)] + VarintBytes(f.frameId % TWO_TO_64)
    ensures FrameBytes(Frame(f.frameId, f.operates + [op])) ==
            FrameBytes(f) + [Tag(2, 2)] + VarintBytes(|OperateBytes(op)|) + OperateBytes(op)
  {
    hide VarintBytes, OperateBytes;
    OperatesOneMore(f.operates, op);
    var id, ops, last := IntField(8, f.frameId), OperateFields(f.operates), OperateBytes(op);
    assert id + (ops + [18] + VarintBytes(|last|) + last) == id + ops + [18] + VarintBytes(|last|) + last;
    assert IntField(8, f.frameId) + OperateFields([]) == IntField(8, f.frameId);
  }

  lemma {:induction false} OperatesOneMore(ops: seq<UserOperate>, op: UserOperate)
    ensures OperateFields([]) == []
    ensures OperateFields(ops + [op]) == OperateFields(ops) + [18] + VarintBytes(|OperateBytes(op)|) + OperateBytes(op)
    decreases |ops|
  {
    hide VarintBytes, OperateBytes;
    var last := [18] + Sized(OperateBytes(op));
    assert last == [18] + VarintBytes(|OperateBytes(op)|) + OperateBytes(op);
    if ops == [] {
      assert [] + [op] == [op] && [op][1..] == [];
      assert OperateFields([op]) == last + [];
    } else {
      var first := [18] + Sized(OperateBytes(ops[0]));
      OperatesOneMore(ops[1..], op);
      assert (ops + [op])[0] == ops[0] && (ops + [op])[1..] == ops[1..] + [op];
      assert OperateFields(ops + [op]) == first + (OperateFields(ops[1..]) + last);
      assert OperateFields(ops) == first + OperateFields(ops[1..]);
    }
  }

  /** GameReplay: each frame is a record of field 1, in order. */
  lemma {:induction false} FieldsOfReplay(frames: seq<Frame>, f: Frame)
    ensures ReplayBytes(GameReplay([])) == []
    ensures ReplayBytes(GameReplay(frames + [f])) ==
            ReplayBytes(GameReplay(frames)) + [Tag(1, 2)] + VarintBytes(|FrameBytes(f)|) + FrameBytes(f)
    decreases |frames|
  {
    hide VarintBytes, FrameBytes;
    var last := [10] + Sized(FrameBytes(f));
    assert last == [10] + VarintBytes(|FrameBytes(f)|) + FrameBytes(f);
    if frames == [] {
      assert [] + [f] == [f] && [f][1..] == [];
      assert FrameFields([f]) == last + [];
    } else {
      var first := [10] + Sized(FrameBytes(frames[0]));
      FieldsOfReplay(frames[1..], f);
      assert (frames + [f])[0] == frames[0] && (frames + [f])[1..] == frames[1..] + [f];
      assert FrameFields(frames + [f]) == first + (FrameFields(frames[1..]) + last);
      assert FrameFields(frames) == first + FrameFields(frames[1..]);
    }
  }

  /** A value of data is also read when it stands alone, as a varint of field 1. */
  lemma UnpackedValue(m: UserOperate, x: int, rest: seq<byte>)
    requires FitsInt64(x)
    ensures ReadOperate(m, [Tag(1, 0)] + VarintBytes(x % TWO_TO_64) + rest) ==
            ReadOperate(m.(data := m.data + [x]), rest)
  {
    hide VarintBytes, ReadVarint, ReadSized, ReadPacked;
    var v := VarintBytes(Pattern(x));
    assert [8] + v + rest == [8] + (v + rest);
    ReadTagOfByte(8, v + rest);
    ReadVarintOfBytes(Pattern(x), rest);
    PatternRoundTrip(x);
  }
}
