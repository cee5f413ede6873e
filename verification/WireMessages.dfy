/** The generated message classes: parse loops, serializers that write into a buffer, size
    computation, merging and copying, proved against WireFormat. */
module WireMessages {
  import opened Basics
  import opened Bytes
  import opened Messages
  import opened Varint
  import opened WireFormat

  // ---- writing into a buffer ----

  /** `after` is `before` with `x` written at `at`. */
  ghost predicate Wrote(before: seq<byte>, after: seq<byte>, at: nat, x: seq<byte>) {
    at + |x| <= |before| && after == before[..at] + x + before[at + |x|..]
  }

  lemma WroteNothing(s: seq<byte>, at: nat)
    requires at <= |s|
    ensures Wrote(s, s, at, [])
  {
  }

  lemma WroteByte(s: seq<byte>, at: nat, x: byte)
    requires at < |s|
    ensures Wrote(s, s[at := x], at, [x])
  {
  }

  /** Writes next to each other amount to one write. */
  lemma WroteThen(a: seq<byte>, b: seq<byte>, c: seq<byte>, at: nat, x: seq<byte>, y: seq<byte>)
    requires Wrote(a, b, at, x) && Wrote(b, c, at + |x|, y)
    ensures Wrote(a, c, at, x + y)
  {
    assert b[..at + |x|] == a[..at] + x;
    assert b[at + |x| + |y|..] == a[at + |x| + |y|..];
    assert c == (a[..at] + x) + y + a[at + |x| + |y|..];
  }

  method PutByte(target: array<byte>, at: nat, x: byte) returns (end: nat)
    requires at < target.Length
    modifies target
    ensures end == at + 1
    ensures Wrote(old(target[..]), target[..], at, [x])
  {
    target[at] := x;
    WroteByte(old(target[..]), at, x);
    assert target[..] == old(target[..])[at := x];
    end := at + 1;
  }

  method PutVarint(target: array<byte>, at: nat, v: nat) returns (end: nat)
    requires at + |VarintBytes(v)| <= target.Length
    modifies target
    ensures end == at + |VarintBytes(v)|
    ensures Wrote(old(target[..]), target[..], at, VarintBytes(v))
  {
    ghost var before := target[..];
    ghost var done: seq<byte> := [];
    var rest := v;
    end := at;
    WroteNothing(before, at);
    while rest >= 0x80
      invariant target[..] == before || |target[..]| == |before|
      invariant VarintBytes(v) == done + VarintBytes(rest)
      invariant end == at + |done|
      invariant Wrote(before, target[..], at, done)
    {
      ghost var mid := target[..];
      ghost var low: byte := rest % 0x80 + 0x80;
      assert VarintBytes(rest) == [low] + VarintBytes(rest / 0x80);
      end := PutByte(target, end, rest % 0x80 + 0x80);
      WroteThen(before, mid, target[..], at, done, [low]);
      assert done + ([low] + VarintBytes(rest / 0x80)) == (done + [low]) + VarintBytes(rest / 0x80);
      done := done + [low];
      rest := rest / 0x80;
    }
    ghost var mid := target[..];
    end := PutByte(target, end, rest);
    WroteThen(before, mid, target[..], at, done, [rest]);
  }

  /** `WriteInt32ToArray`, `WriteEnumToArray`: tag and value, unless the value is zero. */
  method PutIntField(target: array<byte>, at: nat, tag: byte, x: int) returns (end: nat)
    requires at + |IntField(tag, x)| <= target.Length
    modifies target
    ensures end == at + |IntField(tag, x)|
    ensures Wrote(old(target[..]), target[..], at, IntField(tag, x))
  {
    hide VarintBytes;
    if x == 0 {
      WroteNothing(target[..], at);
      return at;
    }
    end := PutByte(target, at, tag);
    ghost var mid := target[..];
    end := PutVarint(target, end, Pattern(x));
    WroteThen(old(target[..]), mid, target[..], at, [tag], VarintBytes(Pattern(x)));
  }

  // ---- UserOperate ----

  class UserOperateMessage {
    var data: seq<int>
    var opt: int
    var userpid: int

    function Value(): UserOperate
      reads this
    {
      UserOperate(data, opt, userpid)
    }

    constructor ()
      ensures Value() == EMPTY_OPERATE
    {
      data, opt, userpid := [], 0, 0;
    }

    method Clear()
      modifies this
      ensures Value() == EMPTY_OPERATE
    {
      data, opt, userpid := [], 0, 0;
    }

    method MergeFrom(from: UserOperateMessage)
      modifies this
      ensures Value() == MergeOperate(old(Value()), old(from.Value()))
    {
      data := data + from.data;
      if from.opt != 0 {
        opt := from.opt;
      }
      if from.userpid != 0 {
        userpid := from.userpid;
      }
    }

    /** Clear, then MergeFrom: an equal message, although merging skips fields that are zero. */
    method CopyFrom(from: UserOperateMessage)
      modifies this
      ensures Value() == old(from.Value())
    {
      if from == this { return; }
      Clear();
      MergeFrom(from);
      assert [] + from.data == from.data;
    }

    method ByteSizeLong() returns (size: nat)
      requires |PackedBytes(data)| <= INT_MAX
      ensures size == |OperateBytes(Value())|
    {
      var dataSize := PackedSize(data);
      size := 0;
      if dataSize > 0 {
        size := size + 1 + VarintSize(Pattern(ToInt32(dataSize)));
      }
      size := size + dataSize;
      if opt != 0 {
        size := size + 1 + VarintSize(Pattern(opt));
      }
      if userpid != 0 {
        size := size + 1 + VarintSize(Pattern(userpid));
      }
      SizesOfOperate(Value());
    }

    method InternalSerialize(target: array<byte>, at: nat) returns (end: nat)
      requires at + |OperateBytes(Value())| <= target.Length
      modifies target
      ensures end == at + |OperateBytes(Value())|
      ensures Wrote(old(target[..]), target[..], at, OperateBytes(Value()))
    {
      hide Wrote, VarintBytes, PackedBytes, DataField, IntField;
      ghost var before := target[..];
      end := PutData(target, at);
      ghost var mid := target[..];
      end := PutIntField(target, end, 16, opt);
      WroteThen(before, mid, target[..], at, DataField(data), IntField(16, opt));
      mid := target[..];
      end := PutIntField(target, end, 24, userpid);
      WroteThen(before, mid, target[..], at, DataField(data) + IntField(16, opt), IntField(24, userpid));
    }

    /** `WriteInt64Packed`, if there is anything to write. */
    method PutData(target: array<byte>, at: nat) returns (end: nat)
      requires at + |DataField(data)| <= target.Length
      modifies target
      ensures end == at + |DataField(data)|
      ensures Wrote(old(target[..]), target[..], at, DataField(data))
    {
      hide VarintBytes, PackedBytes;
      var byteSize := PackedSize(data);
      PackedNotEmpty(data);
      if byteSize == 0 {
        WroteNothing(target[..], at);
        return at;
      }
      hide Wrote;
      ghost var before := target[..];
      end := PutByte(target, at, 10);
      ghost var mid := target[..];
      end := PutVarint(target, end, byteSize);
      WroteThen(before, mid, target[..], at, [10], VarintBytes(byteSize));
      mid := target[..];
      end := PutPacked(target, end, data);
      WroteThen(before, mid, target[..], at, [10] + VarintBytes(byteSize), PackedBytes(data));
      assert DataField(data) == [10] + VarintBytes(byteSize) + PackedBytes(data);
    }

    /** The parse loop: fields are read into this message until the bytes run out. */
    method InternalParse(b: seq<byte>) returns (ok: bool)
      modifies this
      ensures ok <==> ReadOperate(old(Value()), b).Some?
      ensures ok ==> Value() == ReadOperate(old(Value()), b).value
    {
      hide ReadOperate, ReadPacked, ReadSized, ReadVarint, ReadTag, ToInt64, ToInt32;
      var ptr := 0;
      assert b[0..] == b;
      while ptr < |b|
        invariant 0 <= ptr <= |b|
        invariant ReadOperate(old(Value()), b) == ReadOperate(Value(), b[ptr..])
        decreases |b| - ptr
      {
        OperateRound(Value(), b[ptr..]);
        var tagged := ReadTag(b[ptr..]);
        if tagged == None { return false; }
        var (tag, n) := tagged.value;
        assert b[ptr..][n..] == b[ptr + n..];
        ptr := ptr + n;
        if tag == 10 {
          var sized := ReadSized(b[ptr..]);
          if sized == None { return false; }
          var packed := ReadPacked(sized.value.0);
          if packed == None { return false; }
          data := data + packed.value;
          assert b[ptr..][|b[ptr..]| - |sized.value.1|..] == b[|b| - |sized.value.1|..];
          ptr := |b| - |sized.value.1|;
        } else if tag == 8 || tag == 16 || tag == 24 {
          var varint := ReadVarint(b[ptr..]);
          if varint == None { return false; }
          var (v, k) := varint.value;
          assert b[ptr..][k..] == b[ptr + k..];
          ptr := ptr + k;
          if tag == 8 {
            data := data + [ToInt64(v)];
          } else if tag == 16 {
            opt := ToInt32(v);
          } else {
            userpid := ToInt32(v);
          }
        } else {
          return false;
        }
      }
      assert b[ptr..] == [];
      ReadNothing(Value(), EMPTY_FRAME, EMPTY_REPLAY);
      return true;
    }
  }

  /** One round of the parse loop. */
  lemma OperateRound(m: UserOperate, b: seq<byte>)
    requires b != []
    ensures ReadTag(b) == None ==> ReadOperate(m, b) == None
    ensures ReadTag(b).Some? ==>
      var (tag, n) := ReadTag(b).value;
      && (tag == 10 ==>
            match ReadSized(b[n..])
            case None => ReadOperate(m, b) == None
            case Some((payload, after)) =>
              match ReadPacked(payload)
              case None => ReadOperate(m, b) == None
              case Some(data) => ReadOperate(m, b) == ReadOperate(m.(data := m.data + data), after))
      && (tag == 8 || tag == 16 || tag == 24 ==>
            match ReadVarint(b[n..])
            case None => ReadOperate(m, b) == None
            case Some((v, k)) => ReadOperate(m, b) == ReadOperate(SetOperateField(m, tag, v), b[n..][k..]))
      && (tag != 10 && tag != 8 && tag != 16 && tag != 24 ==> ReadOperate(m, b) == None)
  {
    hide ReadPacked, ReadSized, ReadVarint, SetOperateField;
  }

  lemma PackedNotEmpty(data: seq<int>)
    ensures |PackedBytes(data)| == 0 <==> data == []
  {
  }

  lemma SizesOfOperate(m: UserOperate)
    requires |PackedBytes(m.data)| <= INT_MAX
    ensures var n := |PackedBytes(m.data)|;
      |OperateBytes(m)| == (if n > 0 then 1 + VarintSize(Pattern(ToInt32(n))) + n else 0)
                           + (if m.opt != 0 then 1 + VarintSize(Pattern(m.opt)) else 0)
                           + (if m.userpid != 0 then 1 + VarintSize(Pattern(m.userpid)) else 0)
  {
    hide VarintBytes, VarintSize, PackedBytes;
    PackedNotEmpty(m.data);
    VarintSizeIsLength(|PackedBytes(m.data)|);
    VarintSizeIsLength(Pattern(m.opt));
    VarintSizeIsLength(Pattern(m.userpid));
  }

  /** `Int64Size` of a repeated field. */
  method PackedSize(data: seq<int>) returns (size: nat)
    ensures size == |PackedBytes(data)|
  {
    hide VarintBytes, VarintSize;
    size := 0;
    assert data[0..] == data;
    for i := 0 to |data|
      invariant size + |PackedBytes(data[i..])| == |PackedBytes(data)|
    {
      assert data[i..][0] == data[i] && data[i..][1..] == data[i + 1..];
      VarintSizeIsLength(Pattern(data[i]));
      size := size + VarintSize(Pattern(data[i]));
    }
    assert data[|data|..] == [];
  }

  method PutPacked(target: array<byte>, at: nat, data: seq<int>) returns (end: nat)
    requires at + |PackedBytes(data)| <= target.Length
    modifies target
    ensures end == at + |PackedBytes(data)|
    ensures Wrote(old(target[..]), target[..], at, PackedBytes(data))
  {
    hide VarintBytes;
    ghost var before := target[..];
    ghost var done: seq<byte> := [];
    WroteNothing(before, at);
    end := at;
    var i := 0;
    assert data[0..] == data;
    while i < |data|
      invariant 0 <= i <= |data|
      invariant PackedBytes(data) == done + PackedBytes(data[i..])
      invariant end == at + |done|
      invariant Wrote(before, target[..], at, done)
    {
      ghost var mid, one := target[..], VarintBytes(Pattern(data[i]));
      assert data[i..][0] == data[i] && data[i..][1..] == data[i + 1..];
      assert PackedBytes(data[i..]) == one + PackedBytes(data[i + 1..]);
      end := PutVarint(target, end, Pattern(data[i]));
      WroteThen(before, mid, target[..], at, done, one);
      assert done + (one + PackedBytes(data[i + 1..])) == (done + one) + PackedBytes(data[i + 1..]);
      done := done + one;
      i := i + 1;
    }
    assert data[i..] == [] && done + [] == done;
  }
}
