/** The receive buffer of a connection: a circular queue in a fixed array. */
module RingBuffers {
  import opened Bytes

  const MAX_BUFFER_SIZE: int := 1048576

  /** The place `i` behind `begin`, wrapping around at the end of the array. */
  function Slot(begin: nat, i: nat): (p: nat)
    ensures p < MAX_BUFFER_SIZE
  {
    (begin + i) % MAX_BUFFER_SIZE
  }

  /** The `n` bytes of the array from `begin` on, wrapping around. */
  function Window(data: seq<byte>, begin: nat, n: nat): (s: seq<byte>)
    requires |data| == MAX_BUFFER_SIZE
    ensures |s| == n
  {
    seq(n, i requires 0 <= i < n => data[Slot(begin, i)])
  }

  /** Writing behind a window that is not the whole array extends it by one byte. */
  lemma WindowPut(data: seq<byte>, begin: nat, n: nat, x: byte)
    requires |data| == MAX_BUFFER_SIZE && n < MAX_BUFFER_SIZE
    ensures Window(data[Slot(begin, n) := x], begin, n + 1) == Window(data, begin, n) + [x]
  {
    var put := data[Slot(begin, n) := x];
    forall i | 0 <= i < n
      ensures put[Slot(begin, i)] == data[Slot(begin, i)]
    {
      assert Slot(begin, i) != Slot(begin, n);
    }
  }

  lemma WindowPop(data: seq<byte>, begin: nat, n: nat, k: nat)
    requires |data| == MAX_BUFFER_SIZE && k <= n
    ensures Window(data, Slot(begin, k), n - k) == Window(data, begin, n)[k..]
  {
    forall i | 0 <= i < n - k
      ensures Slot(Slot(begin, k), i) == Slot(begin, k + i)
    {
    }
  }

  lemma WindowFront(data: seq<byte>, begin: nat, n: nat, k: nat)
    requires |data| == MAX_BUFFER_SIZE && k <= n
    ensures Window(data, begin, k) == Window(data, begin, n)[..k]
  {
  }

  /** The 32-bit sums are assigned to 32-bit variables, so none of them overflows. */
  class RingBuffer {
    const buffer: array<byte>
    var begin: uint32
    var end: uint32
    /** Free space. */
    var remain: uint32
    /** Bytes in use. */
    var capacity: uint32

    ghost predicate Valid()
      reads this
    {
      && buffer.Length == MAX_BUFFER_SIZE
      && begin < MAX_BUFFER_SIZE
      && capacity + remain == MAX_BUFFER_SIZE
      && end == Slot(begin, capacity)
    }

    /** The queue the buffer stands for. */
    ghost function Contents(): (s: seq<byte>)
      requires Valid()
      reads this, buffer
      ensures |s| == capacity
    {
      Window(buffer[..], begin, capacity)
    }

    constructor ()
      ensures Valid() && fresh(buffer)
      ensures Contents() == []
    {
      buffer := new byte[MAX_BUFFER_SIZE];
      begin, end, capacity := 0, 0, 0;
      remain := MAX_BUFFER_SIZE;
    }

    /** Appends `size` bytes, or refuses them all. */
    method AddBuffer(bytes: array<byte>, size: uint32) returns (ok: bool)
      requires Valid() && size <= bytes.Length && bytes != buffer
      modifies this, buffer
      ensures Valid()
      ensures ok <==> |old(Contents())| + size <= MAX_BUFFER_SIZE
      ensures Contents() == if ok then old(Contents()) + bytes[..size] else old(Contents())
    {
      if size > remain {
        return false;
      }
      ghost var was := Contents();
      var i: uint32 := 0;
      while i < size
        invariant i <= size <= remain && begin == old(begin) && capacity == old(capacity) && remain == old(remain)
        invariant end == Slot(begin, capacity + i)
        invariant Window(buffer[..], begin, capacity + i) == was + bytes[..i]
      {
        WindowPut(buffer[..], begin, capacity + i, bytes[i]);
        ghost var before := buffer[..];
        buffer[end] := bytes[i];
        assert buffer[..] == before[end := bytes[i]];
        assert bytes[..i + 1] == bytes[..i] + [bytes[i]];
        var next: uint32 := end + 1;
        end := next % MAX_BUFFER_SIZE;
        i := i + 1;
      }
      capacity := capacity + size;
      remain := remain - size;
      return true;
    }

    /** Drops `size` bytes from the front, if there are that many. */
    method PopBuffer(size: uint32) returns (ok: bool)
      requires Valid()
      modifies this
      ensures Valid()
      ensures ok <==> size <= |old(Contents())|
      ensures Contents() == if ok then old(Contents())[size..] else old(Contents())
    {
      if size > capacity {
        return false;
      }
      ghost var was := Contents();
      var moved: uint32 := begin + size;
      begin := moved % MAX_BUFFER_SIZE;
      capacity := capacity - size;
      remain := remain + size;
      WindowPop(buffer[..], old(begin), old(capacity), size);
      return true;
    }

    /** Copies the front of the queue; beyond its end the copy holds stale bytes of the array. */
    method GetBuffer(len: uint32) returns (ret: array<byte>)
      requires Valid()
      ensures fresh(ret) && ret.Length == len
      ensures ret[..] == Window(buffer[..], begin, len)
      ensures len <= |Contents()| ==> ret[..] == Contents()[..len]
    {
      var start := begin;
      ret := new byte[len];
      var i: uint32 := 0;
      while i < len
        invariant i <= len && start == Slot(begin, i)
        invariant forall j | 0 <= j < i :: ret[j] == buffer[Slot(begin, j)]
      {
        ret[i] := buffer[start];
        var next: uint32 := start + 1;
        start := next % MAX_BUFFER_SIZE;
        i := i + 1;
      }
      assert ret[..] == Window(buffer[..], begin, len);
      if len <= capacity {
        WindowFront(buffer[..], begin, capacity, len);
      }
    }

    method GetCapacity() returns (size: uint32)
      requires Valid()
      ensures size == |Contents()|
    {
      size := capacity;
    }
  }
}
