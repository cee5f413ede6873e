/** The generated classes of the nesting messages, Frame and GameReplay. Submessages are held
    by value. */
module WireNested {
  import opened Basics
  import opened Bytes
  import opened Messages
  import opened Varint
  import opened WireFormat
  import opened WireMessages

  method FromOperate(op: UserOperate) returns (msg: UserOperateMessage)
    ensures fresh(msg) && msg.Value() == op
  {
    msg := new UserOperateMessage();
    msg.data, msg.opt, msg.userpid := op.data, op.opt, op.userpid;
  }

  /** `LengthDelimitedSize` */
  function SizedLength(n: nat): nat {
    n + VarintSize(n)
  }

  // ---- Frame ----

  class FrameMessage {
    var frameId: int
    var operates: seq<UserOperate>

    function Value(): Frame
      reads this
    {
      Frame(frameId, operates)
    }

    constructor ()
      ensures Value() == EMPTY_FRAME
    {
      frameId, operates := 0, [];
    }

    method Clear()
      modifies this
      ensures Value() == EMPTY_FRAME
    {
      frameId, operates := 0, [];
    }

    method MergeFrom(from: FrameMessage)
      modifies this
      ensures Value() == MergeFrame(old(Value()), old(from.Value()))
    {
      operates := operates + from.operates;
      if from.frameId != 0 {
        frameId := from.frameId;
      }
    }

    method CopyFrom(from: FrameMessage)
      modifies this
      ensures Value() == old(from.Value())
    {
      if from == this { return; }
      Clear();
      MergeFrom(from);
      assert [] + from.operates == from.operates;
    }

    method ByteSizeLong() returns (size: nat)
      requires |FrameBytes(Value())| <= INT_MAX
      ensures size == |FrameBytes(Value())|
    {
      hide VarintBytes, VarintSize, OperateBytes;
      size := |operates|;
      assert operates[0..] == operates;
      for i := 0 to |operates|
        invariant size + |OperateFields(operates[i..])| == |OperateFields(operates)| + |operates| - i
      {
        assert operates[i..][0] == operates[i] && operates[i..][1..] == operates[i + 1..];
        OperateFieldSize(operates[i..]);
        OperateFieldsShrink(operates, i);
        var msg := FromOperate(operates[i]);
        PackedIsPart(operates[i]);
        var one := msg.ByteSizeLong();
        size := size + SizedLength(one);
      }
      assert operates[|operates|..] == [];
      if frameId != 0 {
        VarintSizeIsLength(Pattern(frameId));
        size := size + 1 + VarintSize(Pattern(frameId));
      }
    }

    method InternalSerialize(target: array<byte>, at: nat) returns (end: nat)
      requires at + |FrameBytes(Value())| <= target.Length
      modifies target
      ensures end == at + |FrameBytes(Value())|
      ensures Wrote(old(target[..]), target[..], at, FrameBytes(Value()))
    {
      hide Wrote, IntField, OperateFields;
      end := PutIntField(target, at, 8, frameId);
      ghost var mid := target[..];
      end := PutOperates(target, end, operates);
      WroteThen(old(target[..]), mid, target[..], at, IntField(8, frameId), OperateFields(operates));
    }

    /** The parse loop. Operations that follow each other are read in an inner loop, which
        only peeks at the next tag byte. */
    method InternalParse(b: seq<byte>) returns (ok: bool)
      modifies this
      ensures ok <==> ReadFrame(old(Value()), b).Some?
      ensures ok ==> Value() == ReadFrame(old(Value()), b).value
    {
      hide ReadFrame, ReadSized, ReadVarint, ReadTag, ToInt32;
      var ptr := 0;
      assert b[0..] == b;
      while ptr < |b|
        invariant 0 <= ptr <= |b|
        invariant ReadFrame(old(Value()), b) == ReadFrame(Value(), b[ptr..])
        decreases |b| - ptr
      {
        FrameRound(Value(), b[ptr..]);
        var tagged := ReadTag(b[ptr..]);
        if tagged == None { return false; }
        var (tag, n) := tagged.value;
        assert b[ptr..][n..] == b[ptr + n..];
        ptr := ptr + n;
        if tag == 8 {
          var varint := ReadVarint(b[ptr..]);
          if varint == None { return false; }
          var (v, k) := varint.value;
          assert b[ptr..][k..] == b[ptr + k..];
          ptr := ptr + k;
          frameId := ToInt32(v);
        } else if tag == 18 {
          SameAfterTag(Value(), b[ptr - n..], n);
          var next := ParseOperates(b, ptr);
          if next == None { return false; }
          ptr := next.value;
        } else {
          return false;
        }
      }
      assert b[ptr..] == [];
      ReadNothing(EMPTY_OPERATE, Value(), EMPTY_REPLAY);
      return true;
    }

    /** The inner loop: from behind the tag of one operation to the next field of another kind. */
    method ParseOperates(b: seq<byte>, at: nat) returns (next: Option<nat>)
      requires at <= |b|
      modifies this
      ensures next == None ==> ReadFrame(old(Value()), [18] + b[at..]) == None
      ensures next.Some? ==> at < next.value <= |b|
      ensures next.Some? ==> ReadFrame(old(Value()), [18] + b[at..]) == ReadFrame(Value(), b[next.value..])
    {
      hide ReadFrame, ReadSized, ReadOperate;
      var ptr := at;
      while true
        invariant at <= ptr <= |b|
        invariant ReadFrame(old(Value()), [18] + b[at..]) == ReadFrame(Value(), [18] + b[ptr..])
        decreases |b| - ptr
      {
        OperateFieldRound(Value(), b[ptr..]);
        var sized := ReadSized(b[ptr..]);
        if sized == None { return None; }
        var op := new UserOperateMessage();
        var ok := op.InternalParse(sized.value.0);
        if !ok { return None; }
        operates := operates + [op.Value()];
        assert b[ptr..][|b[ptr..]| - |sized.value.1|..] == b[|b| - |sized.value.1|..];
        ptr := |b| - |sized.value.1|;
        if ptr == |b| || b[ptr] != 18 {
          return Some(ptr);
        }
        assert b[ptr..] == [18] + b[ptr + 1..];
        ptr := ptr + 1;
      }
    }
  }

  lemma OperateFieldSize(ops: seq<UserOperate>)
    requires ops != []
    ensures |OperateFields(ops)| == 1 + SizedLength(|OperateBytes(ops[0])|) + |OperateFields(ops[1..])|
  {
    hide OperateBytes;
    VarintSizeIsLength(|OperateBytes(ops[0])|);
  }

  lemma {:induction false} OperateFieldsShrink(ops: seq<UserOperate>, i: nat)
    requires i < |ops|
    ensures |OperateBytes(ops[i])| <= |OperateFields(ops)|
    decreases i
  {
    hide OperateBytes;
    if i > 0 {
      OperateFieldsShrink(ops[1..], i - 1);
    }
  }

  function OperateField(op: UserOperate): seq<byte> {
    [18] + Sized(OperateBytes(op))
  }

  lemma OperateFieldsAt(all: seq<UserOperate>, i: nat, done: seq<byte>)
    requires i < |all| && OperateFields(all) == done + OperateFields(all[i..])
    ensures OperateFields(all) == (done + OperateField(all[i])) + OperateFields(all[i + 1..])
  {
    hide OperateBytes, Sized;
    assert all[i..][0] == all[i] && all[i..][1..] == all[i + 1..];
    assert OperateFields(all[i..]) == OperateField(all[i]) + OperateFields(all[i + 1..]);
    assert done + (OperateField(all[i]) + OperateFields(all[i + 1..]))
        == (done + OperateField(all[i])) + OperateFields(all[i + 1..]);
  }

  lemma NoOperateFields()
    ensures OperateFields([]) == []
  {
  }

  method PutOperates(target: array<byte>, at: nat, all: seq<UserOperate>) returns (end: nat)
    requires at + |OperateFields(all)| <= target.Length
    modifies target
    ensures end == at + |OperateFields(all)|
    ensures Wrote(old(target[..]), target[..], at, OperateFields(all))
  {
    hide OperateFields, OperateField, Wrote;
    ghost var before := target[..];
    ghost var done: seq<byte> := [];
    WroteNothing(before, at);
    end := at;
    assert all[0..] == all && [] + OperateFields(all) == OperateFields(all);
    for i := 0 to |all|
      invariant OperateFields(all) == done + OperateFields(all[i..])
      invariant end == at + |done|
      invariant Wrote(before, target[..], at, done)
    {
      ghost var mid := target[..];
      OperateFieldsAt(all, i, done);
      end := PutOperate(target, end, all[i]);
      WroteThen(before, mid, target[..], at, done, OperateField(all[i]));
      done := done + OperateField(all[i]);
    }
    NoOperateFields();
    assert all[|all|..] == [] && done + [] == done;
  }

  /** `InternalWriteMessage`: tag, size, and the message itself. */
  method PutOperate(target: array<byte>, at: nat, op: UserOperate) returns (end: nat)
    requires at + |OperateField(op)| <= target.Length
    modifies target
    ensures end == at + |OperateField(op)|
    ensures Wrote(old(target[..]), target[..], at, OperateField(op))
  {
    hide OperateBytes, Wrote, VarintBytes;
    ghost var before, payload := target[..], OperateBytes(op);
    ghost var head := [18] + VarintBytes(|payload|);
    assert OperateField(op) == head + payload && |OperateField(op)| == |head| + |payload|;
    hide OperateField, Sized;
    end := PutHead(target, at, 18, |OperateBytes(op)|);
    ghost var mid := target[..];
    var msg := FromOperate(op);
    end := msg.InternalSerialize(target, end);
    WroteThen(before, mid, target[..], at, head, payload);
  }

  /** A tag byte and the size of the message behind it. */
  method PutHead(target: array<byte>, at: nat, tag: byte, size: nat) returns (end: nat)
    requires at + 1 + |VarintBytes(size)| <= target.Length
    modifies target
    ensures end == at + 1 + |VarintBytes(size)|
    ensures Wrote(old(target[..]), target[..], at, [tag] + VarintBytes(size))
  {
    hide Wrote, VarintBytes;
    ghost var before := target[..];
    end := PutByte(target, at, tag);
    ghost var mid := target[..];
    end := PutVarint(target, end, size);
    WroteThen(before, mid, target[..], at, [tag], VarintBytes(size));
  }

  /** One round of the parse loop. */
  lemma FrameRound(f: Frame, b: seq<byte>)
    requires b != []
    ensures ReadTag(b) == None ==> ReadFrame(f, b) == None
    ensures ReadTag(b).Some? ==>
      var (tag, n) := ReadTag(b).value;
      && (tag == 8 ==>
            match ReadVarint(b[n..])
            case None => ReadFrame(f, b) == None
            case Some((v, k)) => ReadFrame(f, b) == ReadFrame(f.(frameId := ToInt32(v)), b[n..][k..]))
      && (tag != 8 && tag != 18 ==> ReadFrame(f, b) == None)
  {
    hide ReadOperate, ReadSized, ReadVarint, ToInt32;
  }

  /** One operation, behind its tag byte. */
  lemma OperateFieldRound(f: Frame, b: seq<byte>)
    ensures match ReadSized(b)
      case None => ReadFrame(f, [18] + b) == None
      case Some((payload, after)) =>
        match ReadOperate(EMPTY_OPERATE, payload)
        case None => ReadFrame(f, [18] + b) == None
        case Some(op) => ReadFrame(f, [18] + b) == ReadFrame(f.(operates := f.operates + [op]), after)
  {
    hide ReadOperate, ReadSized;
    ReadTagOfByte(18, b);
  }

  /** However long the tag was written, what follows is read the same. */
  lemma SameAfterTag(f: Frame, b: seq<byte>, n: nat)
    requires b != [] && ReadTag(b) == Some((18, n))
    ensures n <= |b| && ReadFrame(f, b) == ReadFrame(f, [18] + b[n..])
  {
    hide ReadOperate, ReadSized;
    ReadTagOfByte(18, b[n..]);
  }

  // ---- GameReplay ----

  method FromFrame(f: Frame) returns (msg: FrameMessage)
    ensures fresh(msg) && msg.Value() == f
  {
    msg := new FrameMessage();
    msg.frameId, msg.operates := f.frameId, f.operates;
  }

  class GameReplayMessage {
    var frames: seq<Frame>

    function Value(): GameReplay
      reads this
    {
      GameReplay(frames)
    }

    constructor ()
      ensures Value() == EMPTY_REPLAY
    {
      frames := [];
    }

    method Clear()
      modifies this
      ensures Value() == EMPTY_REPLAY
    {
      frames := [];
    }

    method MergeFrom(from: GameReplayMessage)
      modifies this
      ensures Value() == MergeReplay(old(Value()), old(from.Value()))
    {
      frames := frames + from.frames;
    }

    method CopyFrom(from: GameReplayMessage)
      modifies this
      ensures Value() == old(from.Value())
    {
      if from == this { return; }
      Clear();
      MergeFrom(from);
      assert [] + from.frames == from.frames;
    }

    method ByteSizeLong() returns (size: nat)
      requires |ReplayBytes(Value())| <= INT_MAX
      ensures size == |ReplayBytes(Value())|
    {
      hide VarintBytes, VarintSize, FrameBytes;
      size := |frames|;
      assert frames[0..] == frames;
      for i := 0 to |frames|
        invariant size + |FrameFields(frames[i..])| == |FrameFields(frames)| + |frames| - i
      {
        assert frames[i..][0] == frames[i] && frames[i..][1..] == frames[i + 1..];
        FrameFieldSize(frames[i..]);
        FrameFieldsShrink(frames, i);
        var msg := FromFrame(frames[i]);
        var one := msg.ByteSizeLong();
        size := size + SizedLength(one);
      }
      assert frames[|frames|..] == [];
    }

    method InternalSerialize(target: array<byte>, at: nat) returns (end: nat)
      requires at + |ReplayBytes(Value())| <= target.Length
      modifies target
      ensures end == at + |ReplayBytes(Value())|
      ensures Wrote(old(target[..]), target[..], at, ReplayBytes(Value()))
    {
      hide FrameFields, Wrote;
      end := PutFrames(target, at, frames);
    }

    method InternalParse(b: seq<byte>) returns (ok: bool)
      modifies this
      ensures ok <==> ReadReplay(old(Value()), b).Some?
      ensures ok ==> Value() == ReadReplay(old(Value()), b).value
    {
      hide ReadReplay, ReadTag;
      var ptr := 0;
      assert b[0..] == b;
      while ptr < |b|
        invariant 0 <= ptr <= |b|
        invariant ReadReplay(old(Value()), b) == ReadReplay(Value(), b[ptr..])
        decreases |b| - ptr
      {
        ReplayRound(Value(), b[ptr..]);
        var tagged := ReadTag(b[ptr..]);
        if tagged == None { return false; }
        var (tag, n) := tagged.value;
        assert b[ptr..][n..] == b[ptr + n..];
        ptr := ptr + n;
        if tag != 10 { return false; }
        var next := ParseFrames(b, ptr);
        if next == None { return false; }
        ptr := next.value;
      }
      assert b[ptr..] == [];
      ReadNothing(EMPTY_OPERATE, EMPTY_FRAME, Value());
      return true;
    }

    /** The inner loop over frames that follow each other. */
    method ParseFrames(b: seq<byte>, at: nat) returns (next: Option<nat>)
      requires at <= |b|
      modifies this
      ensures next == None ==> ReadReplay(old(Value()), [10] + b[at..]) == None
      ensures next.Some? ==> at < next.value <= |b|
      ensures next.Some? ==> ReadReplay(old(Value()), [10] + b[at..]) == ReadReplay(Value(), b[next.value..])
    {
      hide ReadReplay, ReadSized, ReadFrame;
      var ptr := at;
      while true
        invariant at <= ptr <= |b|
        invariant ReadReplay(old(Value()), [10] + b[at..]) == ReadReplay(Value(), [10] + b[ptr..])
        decreases |b| - ptr
      {
        FrameFieldRound(Value(), b[ptr..]);
        var sized := ReadSized(b[ptr..]);
        if sized == None { return None; }
        var f := new FrameMessage();
        var ok := f.InternalParse(sized.value.0);
        if !ok { return None; }
        frames := frames + [f.Value()];
        assert b[ptr..][|b[ptr..]| - |sized.value.1|..] == b[|b| - |sized.value.1|..];
        ptr := |b| - |sized.value.1|;
        if ptr == |b| || b[ptr] != 10 {
          return Some(ptr);
        }
        assert b[ptr..] == [10] + b[ptr + 1..];
        ptr := ptr + 1;
      }
    }
  }

  lemma FrameFieldSize(frames: seq<Frame>)
    requires frames != []
    ensures |FrameFields(frames)| == 1 + SizedLength(|FrameBytes(frames[0])|) + |FrameFields(frames[1..])|
  {
    hide FrameBytes;
    VarintSizeIsLength(|FrameBytes(frames[0])|);
  }

  lemma {:induction false} FrameFieldsShrink(frames: seq<Frame>, i: nat)
    requires i < |frames|
    ensures |FrameBytes(frames[i])| <= |FrameFields(frames)|
    decreases i
  {
    hide FrameBytes;
    if i > 0 {
      FrameFieldsShrink(frames[1..], i - 1);
    }
  }

  function FrameField(f: Frame): seq<byte> {
    [10] + Sized(FrameBytes(f))
  }

  lemma FrameFieldsAt(all: seq<Frame>, i: nat, done: seq<byte>)
    requires i < |all| && FrameFields(all) == done + FrameFields(all[i..])
    ensures FrameFields(all) == (done + FrameField(all[i])) + FrameFields(all[i + 1..])
  {
    hide FrameBytes, Sized;
    assert all[i..][0] == all[i] && all[i..][1..] == all[i + 1..];
    assert FrameFields(all[i..]) == FrameField(all[i]) + FrameFields(all[i + 1..]);
    assert done + (FrameField(all[i]) + FrameFields(all[i + 1..]))
        == (done + FrameField(all[i])) + FrameFields(all[i + 1..]);
  }

  lemma NoFrameFields()
    ensures FrameFields([]) == []
  {
  }

  method PutFrames(target: array<byte>, at: nat, all: seq<Frame>) returns (end: nat)
    requires at + |FrameFields(all)| <= target.Length
    modifies target
    ensures end == at + |FrameFields(all)|
    ensures Wrote(old(target[..]), target[..], at, FrameFields(all))
  {
    hide FrameFields, FrameField, Wrote;
    ghost var before := target[..];
    ghost var done: seq<byte> := [];
    WroteNothing(before, at);
    end := at;
    assert all[0..] == all && [] + FrameFields(all) == FrameFields(all);
    for i := 0 to |all|
      invariant FrameFields(all) == done + FrameFields(all[i..])
      invariant end == at + |done|
      invariant Wrote(before, target[..], at, done)
    {
      ghost var mid := target[..];
      FrameFieldsAt(all, i, done);
      end := PutFrame(target, end, all[i]);
      WroteThen(before, mid, target[..], at, done, FrameField(all[i]));
      done := done + FrameField(all[i]);
    }
    NoFrameFields();
    assert all[|all|..] == [] && done + [] == done;
  }

  /** `InternalWriteMessage`: tag, size, and the message itself. */
  method PutFrame(target: array<byte>, at: nat, f: Frame) returns (end: nat)
    requires at + |FrameField(f)| <= target.Length
    modifies target
    ensures end == at + |FrameField(f)|
    ensures Wrote(old(target[..]), target[..], at, FrameField(f))
  {
    hide FrameBytes, Wrote, VarintBytes;
    ghost var before, payload := target[..], FrameBytes(f);
    ghost var head := [10] + VarintBytes(|payload|);
    assert FrameField(f) == head + payload && |FrameField(f)| == |head| + |payload|;
    hide FrameField, Sized;
    end := PutHead(target, at, 10, |FrameBytes(f)|);
    ghost var mid := target[..];
    var msg := FromFrame(f);
    end := msg.InternalSerialize(target, end);
    WroteThen(before, mid, target[..], at, head, payload);
  }

  /** One round of the parse loop. */
  lemma ReplayRound(r: GameReplay, b: seq<byte>)
    requires b != []
    ensures ReadTag(b) == None ==> ReadReplay(r, b) == None
    ensures ReadTag(b).Some? ==>
      var (tag, n) := ReadTag(b).value;
      ReadReplay(r, b) == if tag == 10 then ReadReplay(r, [10] + b[n..]) else None
  {
    hide ReadFrame, ReadSized;
    if ReadTag(b).Some? {
      ReadTagOfByte(10, b[ReadTag(b).value.1..]);
    }
  }

  /** One frame, behind its tag byte. */
  lemma FrameFieldRound(r: GameReplay, b: seq<byte>)
    ensures match ReadSized(b)
      case None => ReadReplay(r, [10] + b) == None
      case Some((payload, after)) =>
        match ReadFrame(EMPTY_FRAME, payload)
        case None => ReadReplay(r, [10] + b) == None
        case Some(f) => ReadReplay(r, [10] + b) == ReadReplay(GameReplay(r.frames + [f]), after)
  {
    hide ReadFrame, ReadSized;
    ReadTagOfByte(10, b);
  }
}
