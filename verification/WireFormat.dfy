/** UserOperate, Frame and GameReplay on the wire: what is written, how it is read back into a
    message that may already hold fields, and what merging means. */
module WireFormat {
  import opened Basics
  import opened Bytes
  import opened Messages
  import opened Varint

  const EMPTY_OPERATE := UserOperate([], 0, 0)
  const EMPTY_FRAME := Frame(0, [])
  const EMPTY_REPLAY := GameReplay([])

  // ---- packed int64 ----

  function PackedBytes(data: seq<int>): seq<byte> {
    if data == [] then [] else VarintBytes(Pattern(data[0])) + PackedBytes(data[1..])
  }

  function ReadPacked(b: seq<byte>): Option<seq<int>>
    decreases |b|
  {
    if b == [] then Some([])
    else
      match ReadVarint(b)
      case None => None
      case Some((v, n)) =>
        match ReadPacked(b[n..])
        case None => None
        case Some(rest) => Some([ToInt64(v)] + rest)
  }

  lemma {:induction false} PackedRoundTrip(data: seq<int>)
    requires forall d | d in data :: FitsInt64(d)
    ensures ReadPacked(PackedBytes(data)) == Some(data)
    decreases |data|
  {
    hide VarintBytes, ReadVarint, ToInt64, Pattern;
    if data == [] {
    } else {
      var first, others := VarintBytes(Pattern(data[0])), PackedBytes(data[1..]);
      ReadVarintOfBytes(Pattern(data[0]), others);
      PatternRoundTrip(data[0]);
      PackedRoundTrip(data[1..]);
      assert PackedBytes(data) == first + others && first + others != [];
      assert [data[0]] + data[1..] == data;
    }
  }

  // ---- UserOperate ----

  predicate OperateFits(m: UserOperate) {
    (forall d | d in m.data :: FitsInt64(d)) && FitsInt32(m.opt) && FitsInt32(m.userpid)
  }

  function DataField(data: seq<int>): seq<byte> {
    if data == [] then [] else [10] + Sized(PackedBytes(data))
  }

  /** A 32-bit field is left out when it is zero. */
  function IntField(tag: byte, x: int): seq<byte> {
    if x == 0 then [] else [tag] + VarintBytes(Pattern(x))
  }

  function OperateBytes(m: UserOperate): seq<byte> {
    DataField(m.data) + IntField(16, m.opt) + IntField(24, m.userpid)
  }

  /** Reads fields into `m` until the bytes run out; unknown fields are refused. */
  function ReadOperate(m: UserOperate, b: seq<byte>): Option<UserOperate>
    decreases |b|
  {
    if b == [] then Some(m)
    else
      match ReadTag(b)
      case None => None
      case Some((tag, n)) =>
        if tag == 10 then
          match ReadSized(b[n..])
          case None => None
          case Some((payload, after)) =>
            (match ReadPacked(payload)
             case None => None
             case Some(data) => ReadOperate(m.(data := m.data + data), after))
        else if tag == 8 || tag == 16 || tag == 24 then
          match ReadVarint(b[n..])
          case None => None
          case Some((v, k)) => ReadOperate(SetOperateField(m, tag, v), b[n..][k..])
        else None
  }

  function SetOperateField(m: UserOperate, tag: nat, v: nat): UserOperate {
    if tag == 8 then m.(data := m.data + [ToInt64(v)])
    else if tag == 16 then m.(opt := ToInt32(v))
    else m.(userpid := ToInt32(v))
  }

  /** Repeated fields are appended; the other fields are taken over when not zero. */
  function MergeOperate(m: UserOperate, from: UserOperate): UserOperate {
    UserOperate(m.data + from.data,
                if from.opt != 0 then from.opt else m.opt,
                if from.userpid != 0 then from.userpid else m.userpid)
  }

  lemma ReadDataField(m: UserOperate, data: seq<int>, rest: seq<byte>)
    requires (forall d | d in data :: FitsInt64(d)) && |PackedBytes(data)| <= INT_MAX
    ensures ReadOperate(m, DataField(data) + rest) == ReadOperate(m.(data := m.data + data), rest)
  {
    hide ReadPacked, PackedBytes, ReadSized, Sized;
    if data == [] {
      assert DataField(data) + rest == rest && m.data + data == m.data;
    } else {
      var payload := PackedBytes(data);
      assert DataField(data) + rest == [10] + (Sized(payload) + rest);
      ReadTagOfByte(10, Sized(payload) + rest);
      ReadSizedOfSized(payload, rest);
      PackedRoundTrip(data);
    }
  }

  lemma ReadOperateInt(m: UserOperate, tag: byte, x: int, rest: seq<byte>)
    requires tag == 16 || tag == 24
    ensures ReadOperate(m, IntField(tag, x) + rest) ==
            ReadOperate(if x == 0 then m else SetOperateField(m, tag, Pattern(x)), rest)
  {
    hide VarintBytes, ReadVarint, SetOperateField;
    if x == 0 {
      assert IntField(tag, x) + rest == rest;
    } else {
      var v := VarintBytes(Pattern(x));
      assert IntField(tag, x) + rest == [tag] + (v + rest);
      ReadTagOfByte(tag, v + rest);
      ReadVarintOfBytes(Pattern(x), rest);
    }
  }

  /** Reading a written message into `m` merges it into `m`. */
  lemma ReadOperateMerges(m: UserOperate, a: UserOperate, rest: seq<byte>)
    requires OperateFits(a) && |OperateBytes(a)| <= INT_MAX
    ensures ReadOperate(m, OperateBytes(a) + rest) == ReadOperate(MergeOperate(m, a), rest)
  {
    hide ReadOperate, DataField, IntField;
    PackedIsPart(a);
    assert OperateBytes(a) + rest == DataField(a.data) + (IntField(16, a.opt) + (IntField(24, a.userpid) + rest));
    var m1 := m.(data := m.data + a.data);
    var m2 := if a.opt == 0 then m1 else SetOperateField(m1, 16, Pattern(a.opt));
    ReadDataField(m, a.data, IntField(16, a.opt) + (IntField(24, a.userpid) + rest));
    ReadOperateInt(m1, 16, a.opt, IntField(24, a.userpid) + rest);
    ReadOperateInt(m2, 24, a.userpid, rest);
    PatternRoundTrip(a.opt);
    PatternRoundTrip(a.userpid);
  }

  lemma PackedIsPart(a: UserOperate)
    ensures |PackedBytes(a.data)| <= |OperateBytes(a)|
  {
  }

  lemma OperateRoundTrip(a: UserOperate)
    requires OperateFits(a) && |OperateBytes(a)| <= INT_MAX
    ensures ReadOperate(EMPTY_OPERATE, OperateBytes(a)) == Some(a)
  {
    hide OperateBytes, ReadOperate;
    ReadNothing(a, EMPTY_FRAME, EMPTY_REPLAY);
    ReadOperateMerges(EMPTY_OPERATE, a, []);
    assert OperateBytes(a) + [] == OperateBytes(a);
    assert [] + a.data == a.data;
  }

  // ---- Frame ----

  predicate FrameFits(f: Frame) {
    FitsInt32(f.frameId) && forall op | op in f.operates :: OperateFits(op)
  }

  function OperateFields(ops: seq<UserOperate>): seq<byte> {
    if ops == [] then [] else [18] + Sized(OperateBytes(ops[0])) + OperateFields(ops[1..])
  }

  function FrameBytes(f: Frame): seq<byte> {
    IntField(8, f.frameId) + OperateFields(f.operates)
  }

  function ReadFrame(f: Frame, b: seq<byte>): Option<Frame>
    decreases |b|
  {
    if b == [] then Some(f)
    else
      match ReadTag(b)
      case None => None
      case Some((tag, n)) =>
        if tag == 8 then
          match ReadVarint(b[n..])
          case None => None
          case Some((v, k)) => ReadFrame(f.(frameId := ToInt32(v)), b[n..][k..])
        else if tag == 18 then
          match ReadSized(b[n..])
          case None => None
          case Some((payload, after)) =>
            (match ReadOperate(EMPTY_OPERATE, payload)
             case None => None
             case Some(op) => ReadFrame(f.(operates := f.operates + [op]), after))
        else None
  }

  function MergeFrame(f: Frame, from: Frame): Frame {
    Frame(if from.frameId != 0 then from.frameId else f.frameId, f.operates + from.operates)
  }

  lemma ReadFrameId(f: Frame, x: int, rest: seq<byte>)
    requires FitsInt32(x)
    ensures ReadFrame(f, IntField(8, x) + rest) == ReadFrame(if x == 0 then f else f.(frameId := x), rest)
  {
    hide VarintBytes, ReadVarint, ReadOperate;
    if x == 0 {
      assert IntField(8, x) + rest == rest;
    } else {
      var v := VarintBytes(Pattern(x));
      assert IntField(8, x) + rest == [8] + (v + rest);
      ReadTagOfByte(8, v + rest);
      ReadVarintOfBytes(Pattern(x), rest);
      PatternRoundTrip(x);
    }
  }

  lemma ReadOneOperate(f: Frame, op: UserOperate, rest: seq<byte>)
    requires OperateFits(op) && |OperateBytes(op)| <= INT_MAX
    ensures ReadFrame(f, [18] + Sized(OperateBytes(op)) + rest) == ReadFrame(f.(operates := f.operates + [op]), rest)
  {
    hide ReadOperate, OperateBytes, Sized, ReadSized;
    var payload := OperateBytes(op);
    assert [18] + Sized(payload) + rest == [18] + (Sized(payload) + rest);
    ReadTagOfByte(18, Sized(payload) + rest);
    ReadSizedOfSized(payload, rest);
    OperateRoundTrip(op);
  }

  lemma {:induction false} ReadOperates(f: Frame, ops: seq<UserOperate>, rest: seq<byte>)
    requires (forall op | op in ops :: OperateFits(op)) && |OperateFields(ops)| <= INT_MAX
    ensures ReadFrame(f, OperateFields(ops) + rest) == ReadFrame(f.(operates := f.operates + ops), rest)
    decreases |ops|
  {
    hide ReadFrame, OperateBytes;
    if ops == [] {
      assert OperateFields(ops) + rest == rest && f.operates + ops == f.operates;
    } else {
      var first, others := [18] + Sized(OperateBytes(ops[0])), OperateFields(ops[1..]);
      assert OperateFields(ops) + rest == first + (others + rest);
      ReadOneOperate(f, ops[0], others + rest);
      ReadOperates(f.(operates := f.operates + [ops[0]]), ops[1..], rest);
      assert f.operates + [ops[0]] + ops[1..] == f.operates + ops;
    }
  }

  lemma ReadFrameMerges(f: Frame, a: Frame, rest: seq<byte>)
    requires FrameFits(a) && |FrameBytes(a)| <= INT_MAX
    ensures ReadFrame(f, FrameBytes(a) + rest) == ReadFrame(MergeFrame(f, a), rest)
  {
    hide ReadFrame, OperateFields, IntField;
    assert FrameBytes(a) + rest == IntField(8, a.frameId) + (OperateFields(a.operates) + rest);
    ReadFrameId(f, a.frameId, OperateFields(a.operates) + rest);
    ReadOperates(if a.frameId == 0 then f else f.(frameId := a.frameId), a.operates, rest);
  }

  lemma FrameRoundTrip(a: Frame)
    requires FrameFits(a) && |FrameBytes(a)| <= INT_MAX
    ensures ReadFrame(EMPTY_FRAME, FrameBytes(a)) == Some(a)
  {
    hide FrameBytes, ReadFrame;
    ReadNothing(EMPTY_OPERATE, a, EMPTY_REPLAY);
    ReadFrameMerges(EMPTY_FRAME, a, []);
    assert FrameBytes(a) + [] == FrameBytes(a) && [] + a.operates == a.operates;
  }

  // ---- GameReplay ----

  predicate ReplayFits(r: GameReplay) {
    forall f | f in r.frames :: FrameFits(f)
  }

  function FrameFields(frames: seq<Frame>): seq<byte> {
    if frames == [] then [] else [10] + Sized(FrameBytes(frames[0])) + FrameFields(frames[1..])
  }

  function ReplayBytes(r: GameReplay): seq<byte> {
    FrameFields(r.frames)
  }

  function ReadReplay(r: GameReplay, b: seq<byte>): Option<GameReplay>
    decreases |b|
  {
    if b == [] then Some(r)
    else
      match ReadTag(b)
      case None => None
      case Some((tag, n)) =>
        if tag == 10 then
          match ReadSized(b[n..])
          case None => None
          case Some((payload, after)) =>
            (match ReadFrame(EMPTY_FRAME, payload)
             case None => None
             case Some(f) => ReadReplay(GameReplay(r.frames + [f]), after))
        else None
  }

  function MergeReplay(r: GameReplay, from: GameReplay): GameReplay {
    GameReplay(r.frames + from.frames)
  }

  lemma ReadOneFrame(r: GameReplay, f: Frame, rest: seq<byte>)
    requires FrameFits(f) && |FrameBytes(f)| <= INT_MAX
    ensures ReadReplay(r, [10] + Sized(FrameBytes(f)) + rest) == ReadReplay(GameReplay(r.frames + [f]), rest)
  {
    hide ReadFrame, FrameBytes, Sized, ReadSized;
    var payload := FrameBytes(f);
    assert [10] + Sized(payload) + rest == [10] + (Sized(payload) + rest);
    ReadTagOfByte(10, Sized(payload) + rest);
    ReadSizedOfSized(payload, rest);
    FrameRoundTrip(f);
  }

  lemma {:induction false} ReadReplayMerges(r: GameReplay, a: GameReplay, rest: seq<byte>)
    requires ReplayFits(a) && |ReplayBytes(a)| <= INT_MAX
    ensures ReadReplay(r, ReplayBytes(a) + rest) == ReadReplay(MergeReplay(r, a), rest)
    decreases |a.frames|
  {
    hide ReadReplay, FrameBytes;
    if a.frames == [] {
      assert ReplayBytes(a) + rest == rest && r.frames + a.frames == r.frames;
    } else {
      var first, others := [10] + Sized(FrameBytes(a.frames[0])), GameReplay(a.frames[1..]);
      assert ReplayBytes(a) + rest == first + (ReplayBytes(others) + rest);
      ReadOneFrame(r, a.frames[0], ReplayBytes(others) + rest);
      ReadReplayMerges(GameReplay(r.frames + [a.frames[0]]), others, rest);
      assert r.frames + [a.frames[0]] + a.frames[1..] == r.frames + a.frames;
    }
  }

  lemma ReplayRoundTrip(a: GameReplay)
    requires ReplayFits(a) && |ReplayBytes(a)| <= INT_MAX
    ensures ReadReplay(EMPTY_REPLAY, ReplayBytes(a)) == Some(a)
  {
    hide ReplayBytes, ReadReplay;
    ReadNothing(EMPTY_OPERATE, EMPTY_FRAME, a);
    ReadReplayMerges(EMPTY_REPLAY, a, []);
    assert ReplayBytes(a) + [] == ReplayBytes(a) && [] + a.frames == a.frames;
  }

  // ---- concatenation is merging ----

  lemma ReadNothing(m: UserOperate, f: Frame, r: GameReplay)
    ensures ReadOperate(m, []) == Some(m) && ReadFrame(f, []) == Some(f) && ReadReplay(r, []) == Some(r)
  {
  }

  /** Reading two messages written one after the other gives their merge. */
  lemma OperateConcatenation(a: UserOperate, b: UserOperate)
    requires OperateFits(a) && OperateFits(b) && |OperateBytes(a)| <= INT_MAX && |OperateBytes(b)| <= INT_MAX
    ensures ReadOperate(EMPTY_OPERATE, OperateBytes(a) + OperateBytes(b)) == Some(MergeOperate(a, b))
  {
    hide OperateBytes, ReadOperate;
    ReadNothing(MergeOperate(a, b), EMPTY_FRAME, EMPTY_REPLAY);
    ReadOperateMerges(EMPTY_OPERATE, a, OperateBytes(b));
    assert [] + a.data == a.data;
    ReadOperateMerges(a, b, []);
    assert OperateBytes(b) + [] == OperateBytes(b);
  }

  lemma FrameConcatenation(a: Frame, b: Frame)
    requires FrameFits(a) && FrameFits(b) && |FrameBytes(a)| <= INT_MAX && |FrameBytes(b)| <= INT_MAX
    ensures ReadFrame(EMPTY_FRAME, FrameBytes(a) + FrameBytes(b)) == Some(MergeFrame(a, b))
  {
    hide FrameBytes, ReadFrame;
    ReadNothing(EMPTY_OPERATE, MergeFrame(a, b), EMPTY_REPLAY);
    ReadFrameMerges(EMPTY_FRAME, a, FrameBytes(b));
    assert [] + a.operates == a.operates;
    ReadFrameMerges(a, b, []);
    assert FrameBytes(b) + [] == FrameBytes(b);
  }

  lemma ReplayConcatenation(a: GameReplay, b: GameReplay)
    requires ReplayFits(a) && ReplayFits(b) && |ReplayBytes(a)| <= INT_MAX && |ReplayBytes(b)| <= INT_MAX
    ensures ReadReplay(EMPTY_REPLAY, ReplayBytes(a) + ReplayBytes(b)) == Some(MergeReplay(a, b))
  {
    hide ReplayBytes, ReadReplay;
    ReadNothing(EMPTY_OPERATE, EMPTY_FRAME, MergeReplay(a, b));
    ReadReplayMerges(EMPTY_REPLAY, a, ReplayBytes(b));
    assert [] + a.frames == a.frames;
    ReadReplayMerges(a, b, []);
    assert ReplayBytes(b) + [] == ReplayBytes(b);
  }
}
