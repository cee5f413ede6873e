/** Packets on a byte stream: the 12-byte header, and the loop that cuts a receive buffer
    into packets. */
module Framing {
  import opened Bytes
  import opened RingBuffers

  const HEAD_SIZE: int := 12
  const HEAD_SIZE_S: int := 4
  const TMP_BUFFER_SIZE: int := 1024
  const LOGIN_REQUEST: int := 0
  const ERROR_TOKEN: int := 400

  datatype Head = Head(packageSize: int32, packageType: int32, userid: int32)

  datatype Packet = Packet(head: Head, body: seq<byte>)

  /** The header as it goes over the wire. */
  function HeadBytes(h: Head): (b: seq<byte>)
    ensures |b| == HEAD_SIZE
  {
    IntBytes(h.packageSize) + IntBytes(h.packageType) + IntBytes(ToUint32(h.userid))
  }

  function ParseHead(b: seq<byte>): Head
    requires |b| >= HEAD_SIZE
  {
    Head(ToInt32(Unsigned(b[..4])), ToInt32(Unsigned(b[4..8])), ToInt32(Unsigned(b[8..12])))
  }

  /** Headers survive the wire, negative user ids included. */
  lemma HeadRoundTrip(h: Head, rest: seq<byte>)
    ensures ParseHead(HeadBytes(h) + rest) == h
  {
    var b := HeadBytes(h) + rest;
    assert b[..4] == IntBytes(h.packageSize);
    assert b[4..8] == IntBytes(h.packageType);
    assert b[8..12] == IntBytes(ToUint32(h.userid));
    IntBytesRoundTrip(h.packageSize);
    IntBytesRoundTrip(h.packageType);
    UintBytesRoundTrip(ToUint32(h.userid));
    ToInt32Unique(ToUint32(h.userid), h.userid);
  }

  lemma UseridBytes(b: seq<byte>)
    requires |b| == 4
    ensures IntBytes(ToUint32(ToInt32(Unsigned(b)))) == b
  {
    hide IntBytes, ToInt32, ToUint32, Unsigned;
    BytesOfUnsigned(b);
    BackToUint(Unsigned(b));
  }

  lemma BackToUint(u: uint32)
    ensures ToUint32(ToInt32(u)) == u
  {
  }

  /** Every 12 bytes are the wire form of the header read from them. */
  lemma HeadBytesOfParsed(b: seq<byte>)
    requires |b| >= HEAD_SIZE
    ensures HeadBytes(ParseHead(b)) == b[..HEAD_SIZE]
  {
    hide IntBytes, ToInt32, ToUint32, Unsigned;
    BytesOfUnsigned(b[..4]);
    BytesOfUnsigned(b[4..8]);
    UseridBytes(b[8..12]);
    assert b[..12] == b[..4] + b[4..8] + b[8..12];
  }

  predicate CheckHeaderIsValid(h: Head) {
    HEAD_SIZE <= h.packageSize <= MAX_BUFFER_SIZE && LOGIN_REQUEST <= h.packageType <= ERROR_TOKEN
  }

  // ---- streams ----

  predicate ValidPacket(p: Packet) {
    CheckHeaderIsValid(p.head) && p.head.packageSize == HEAD_SIZE + |p.body|
  }

  ghost predicate AllValid(ps: seq<Packet>) {
    forall p | p in ps :: ValidPacket(p)
  }

  function Encode(p: Packet): seq<byte> {
    HeadBytes(p.head) + p.body
  }

  function EncodeAll(ps: seq<Packet>): seq<byte> {
    if ps == [] then [] else Encode(ps[0]) + EncodeAll(ps[1..])
  }

  /** What the cutting loop makes of a buffer: the packets delivered and the bytes dropped
      after the last one. It overruns when a header announces more bytes than are left. */
  datatype Scanned = Scanned(packets: seq<Packet>, dropped: seq<byte>, overrun: bool)

  function Scan(b: seq<byte>): Scanned
    decreases |b|
  {
    if |b| < HEAD_SIZE then Scanned([], b, false)
    else
      var h := ParseHead(b);
      if !CheckHeaderIsValid(h) then Scanned([], b, false)
      else if h.packageSize > |b| then Scanned([], b, true)
      else
        var rest := Scan(b[h.packageSize..]);
        rest.(packets := [Packet(h, b[HEAD_SIZE..h.packageSize])] + rest.packets)
  }

  /** A valid packet at the front is delivered and the scan goes on behind it. */
  lemma ScanStep(p: Packet, rest: seq<byte>)
    requires ValidPacket(p)
    ensures Scan(Encode(p) + rest) == Scan(rest).(packets := [p] + Scan(rest).packets)
  {
    var b := Encode(p) + rest;
    assert b == HeadBytes(p.head) + (p.body + rest);
    HeadRoundTrip(p.head, p.body + rest);
    assert b[HEAD_SIZE..p.head.packageSize] == p.body;
    assert b[p.head.packageSize..] == rest;
  }

  /** Valid packets at the front of a buffer are all delivered, in order, whatever follows. */
  lemma {:induction false} ScanOfPackets(ps: seq<Packet>, tail: seq<byte>)
    requires AllValid(ps)
    ensures Scan(EncodeAll(ps) + tail) == Scan(tail).(packets := ps + Scan(tail).packets)
    decreases |ps|
  {
    hide Scan, Encode;
    if ps == [] {
      assert EncodeAll(ps) + tail == tail;
      assert ps + Scan(tail).packets == Scan(tail).packets;
    } else {
      assert EncodeAll(ps) + tail == Encode(ps[0]) + (EncodeAll(ps[1..]) + tail);
      ScanStep(ps[0], EncodeAll(ps[1..]) + tail);
      ScanOfPackets(ps[1..], tail);
      assert [ps[0]] + (ps[1..] + Scan(tail).packets) == ps + Scan(tail).packets;
    }
  }

  /** A stream of valid packets is cut into exactly those packets and nothing is dropped. */
  lemma FramingRoundTrip(ps: seq<Packet>)
    requires AllValid(ps)
    ensures Scan(EncodeAll(ps)) == Scanned(ps, [], false)
  {
    ScanOfPackets(ps, []);
    assert EncodeAll(ps) + [] == EncodeAll(ps) && ps + [] == ps;
  }

  /** Conversely, what is delivered and what is dropped make up the buffer: no byte is
      invented, duplicated or reordered, and every delivered packet is valid. */
  lemma {:induction false} ScanIsLossless(b: seq<byte>)
    ensures EncodeAll(Scan(b).packets) + Scan(b).dropped == b
    ensures AllValid(Scan(b).packets)
    decreases |b|
  {
    hide ParseHead, HeadBytes;
    if |b| >= HEAD_SIZE {
      var h := ParseHead(b);
      if CheckHeaderIsValid(h) && h.packageSize <= |b| {
        var p, rest := Packet(h, b[HEAD_SIZE..h.packageSize]), b[h.packageSize..];
        ScanIsLossless(rest);
        HeadBytesOfParsed(b);
        assert b == Encode(p) + rest;
        EncodeAllOfSum(p, Scan(rest).packets, Scan(rest).dropped);
        assert Scan(b).packets == [p] + Scan(rest).packets;
      }
    }
  }

  lemma EncodeAllOfSum(p: Packet, ps: seq<Packet>, tail: seq<byte>)
    ensures EncodeAll([p] + ps) + tail == Encode(p) + (EncodeAll(ps) + tail)
  {
    hide Encode;
    assert ([p] + ps)[1..] == ps;
  }

  /** A packet cut short is never delivered: with less than a header its bytes are dropped,
      with the header complete the loop overruns the buffer. So a buffer of packets is taken
      apart without loss or overrun iff it ends on a packet boundary. */
  lemma CutPacket(ps: seq<Packet>, p: Packet, k: nat)
    requires AllValid(ps) && ValidPacket(p) && k < |Encode(p)|
    ensures var r := Scan(EncodeAll(ps) + Encode(p)[..k]);
      && r.packets == ps
      && r.dropped == Encode(p)[..k]
      && (r.overrun <==> k >= HEAD_SIZE)
      && (r.dropped == [] && !r.overrun <==> k == 0)
  {
    var cut := Encode(p)[..k];
    ScanOfPackets(ps, cut);
    if k >= HEAD_SIZE {
      assert cut == HeadBytes(p.head) + p.body[..k - HEAD_SIZE];
      HeadRoundTrip(p.head, p.body[..k - HEAD_SIZE]);
    }
    assert ps + [] == ps;
  }

  /** The loop overruns exactly the buffers that end in a valid packet cut short behind its
      header. */
  lemma OverrunIff(b: seq<byte>)
    ensures Scan(b).overrun <==> exists ps, p, k :: EndsInCut(b, ps, p, k)
  {
    if Scan(b).overrun {
      var ps, p, k := CutOfOverrun(b);
    }
    forall ps, p, k | EndsInCut(b, ps, p, k)
      ensures Scan(b).overrun
    {
      CutPacket(ps, p, k);
    }
  }

  ghost predicate EndsInCut(b: seq<byte>, ps: seq<Packet>, p: Packet, k: int) {
    && AllValid(ps) && ValidPacket(p)
    && HEAD_SIZE <= k < |Encode(p)|
    && b == EncodeAll(ps) + Encode(p)[..k]
  }

  /** The packets before the overrun, and the last one with what is missing of it filled up. */
  lemma {:induction false} CutOfOverrun(b: seq<byte>) returns (ps: seq<Packet>, p: Packet, k: int)
    requires Scan(b).overrun
    ensures EndsInCut(b, ps, p, k)
    decreases |b|
  {
    hide ParseHead, HeadBytes;
    var h := ParseHead(b);
    HeadBytesOfParsed(b);
    if h.packageSize > |b| {
      var missing := seq(h.packageSize - |b|, _ => 0);
      ps, p, k := [], Packet(h, b[HEAD_SIZE..] + missing), |b|;
      assert Encode(p) == b + missing;
    } else {
      var first, rest := Packet(h, b[HEAD_SIZE..h.packageSize]), b[h.packageSize..];
      assert b == Encode(first) + rest;
      var others;
      others, p, k := CutOfOverrun(rest);
      ps := [first] + others;
      EncodeAllOfSum(first, others, Encode(p)[..k]);
    }
  }

  lemma ScanOfShort(b: seq<byte>)
    requires |b| < HEAD_SIZE
    ensures Scan(b).packets == [] && !Scan(b).overrun
  {
  }

  /** One round of the cutting loop. */
  lemma ScanRound(b: seq<byte>)
    requires |b| >= HEAD_SIZE && !Scan(b).overrun
    ensures var h := ParseHead(b);
      if CheckHeaderIsValid(h) then
        && h.packageSize <= |b|
        && Scan(b).packets == [Packet(h, b[HEAD_SIZE..h.packageSize])] + Scan(b[h.packageSize..]).packets
        && !Scan(b[h.packageSize..]).overrun
      else Scan(b).packets == []
  {
  }

  // ---- chunks ----

  function Concat(chunks: seq<seq<byte>>): seq<byte> {
    if chunks == [] then [] else chunks[0] + Concat(chunks[1..])
  }

  /** What the buffer holds after the read loop: whole chunks are appended until one does not
      fit, which ends the loop. */
  function Buffered(held: seq<byte>, chunks: seq<seq<byte>>): seq<byte>
    decreases |chunks|
  {
    if chunks == [] || |held| + |chunks[0]| > MAX_BUFFER_SIZE then held
    else Buffered(held + chunks[0], chunks[1..])
  }

  predicate AllFit(held: seq<byte>, chunks: seq<seq<byte>>)
    decreases |chunks|
  {
    chunks == [] || (|held| + |chunks[0]| <= MAX_BUFFER_SIZE && AllFit(held + chunks[0], chunks[1..]))
  }

  lemma {:induction false} BufferedWhenItFits(held: seq<byte>, chunks: seq<seq<byte>>)
    requires |held| + |Concat(chunks)| <= MAX_BUFFER_SIZE
    ensures Buffered(held, chunks) == held + Concat(chunks)
    decreases |chunks|
  {
    if chunks == [] {
      assert held + [] == held;
    } else {
      BufferedWhenItFits(held + chunks[0], chunks[1..]);
      assert held + chunks[0] + Concat(chunks[1..]) == held + (chunks[0] + Concat(chunks[1..]));
    }
  }

  /** Whole chunks go into the buffer, in order, up to the first one that does not fit. */
  lemma {:induction false} BufferedUpToTheFirstMisfit(held: seq<byte>, chunks: seq<seq<byte>>)
    requires |held| <= MAX_BUFFER_SIZE
    ensures exists k ::
              && 0 <= k <= |chunks|
              && Buffered(held, chunks) == held + Concat(chunks[..k])
              && |held + Concat(chunks[..k])| <= MAX_BUFFER_SIZE
              && (AllFit(held, chunks) <==> k == |chunks|)
              && (k < |chunks| ==> |held + Concat(chunks[..k])| + |chunks[k]| > MAX_BUFFER_SIZE)
    decreases |chunks|
  {
    if chunks == [] || |held| + |chunks[0]| > MAX_BUFFER_SIZE {
      assert chunks[..0] == [] && held + Concat([]) == held;
    } else {
      BufferedUpToTheFirstMisfit(held + chunks[0], chunks[1..]);
      var k :| && 0 <= k <= |chunks| - 1
               && Buffered(held + chunks[0], chunks[1..]) == held + chunks[0] + Concat(chunks[1..][..k])
               && |held + chunks[0] + Concat(chunks[1..][..k])| <= MAX_BUFFER_SIZE
               && (AllFit(held + chunks[0], chunks[1..]) <==> k == |chunks| - 1)
               && (k < |chunks| - 1 ==>
                     |held + chunks[0] + Concat(chunks[1..][..k])| + |chunks[1..][k]| > MAX_BUFFER_SIZE);
      assert chunks[..k + 1][0] == chunks[0] && chunks[..k + 1][1..] == chunks[1..][..k];
      assert held + Concat(chunks[..k + 1]) == held + chunks[0] + Concat(chunks[1..][..k]);
    }
  }

  /** However the bytes of valid packets are split into chunks, exactly those packets are
      delivered, in order, and nothing is dropped or overrun. */
  lemma FramingOfChunks(ps: seq<Packet>, chunks: seq<seq<byte>>)
    requires AllValid(ps) && Concat(chunks) == EncodeAll(ps) && |EncodeAll(ps)| <= MAX_BUFFER_SIZE
    ensures Scan(Buffered([], chunks)) == Scanned(ps, [], false)
  {
    BufferedWhenItFits([], chunks);
    assert [] + Concat(chunks) == EncodeAll(ps);
    FramingRoundTrip(ps);
  }

  // ---- the receiving end ----

  class Receiver {
    const buffer: RingBuffer
    const tmp: array<byte>
    /** The packets handed to OnMsgBodyAnalysised so far. */
    var delivered: seq<Packet>

    ghost predicate Valid()
      reads this, buffer
    {
      buffer.Valid() && tmp.Length == TMP_BUFFER_SIZE && tmp != buffer.buffer
    }

    constructor ()
      ensures Valid() && fresh(buffer) && fresh(buffer.buffer) && fresh(tmp)
      ensures buffer.Contents() == [] && delivered == []
    {
      tmp := new byte[TMP_BUFFER_SIZE];
      buffer := new RingBuffer();
      delivered := [];
    }

    method ParseHeadFrom(recv: array<byte>, at: nat) returns (head: Head)
      requires at + HEAD_SIZE <= recv.Length
      ensures head == ParseHead(recv[at..])
    {
      var b := recv[at..];
      var packageSize := ByteToInt(b);
      var packageType := ByteToInt(b[HEAD_SIZE_S..]);
      var userid := ByteToUint(b[2 * HEAD_SIZE_S..]);
      assert b[4..][..4] == b[4..8] && b[8..][..4] == b[8..12];
      head := Head(packageSize, packageType, ToInt32(userid));
    }

    /** Cuts the buffer into packets and empties it. Nothing checks that a packet is complete,
        so the caller has to see to it that no header announces more than there is. */
    method HandleReceivedMsg()
      requires Valid() && !Scan(buffer.Contents()).overrun
      modifies this, buffer
      ensures Valid()
      ensures delivered == old(delivered) + Scan(old(buffer.Contents())).packets
      ensures buffer.Contents() == []
    {
      hide Scan, ParseHead, Window;
      ghost var all := buffer.Contents();
      var bufferSize: int := buffer.GetCapacity();
      var recv := buffer.GetBuffer(bufferSize);
      assert recv[..] == all;
      ghost var left := all;
      var at := 0;
      while bufferSize >= HEAD_SIZE
        invariant buffer.Valid() && buffer.Contents() == all
        invariant |left| == bufferSize
        invariant bufferSize > 0 ==> 0 <= at && at + bufferSize == recv.Length && left == recv[at..]
        invariant !Scan(left).overrun
        invariant old(delivered) + Scan(all).packets == delivered + Scan(left).packets
        decreases bufferSize
      {
        ScanRound(left);
        ScanOfShort([]);
        var head := ParseHeadFrom(recv, at);
        if CheckHeaderIsValid(head) {
          var pkgSize := head.packageSize;
          ghost var packet := Packet(head, left[HEAD_SIZE..pkgSize]);
          assert recv[at + HEAD_SIZE..at + pkgSize] == packet.body;
          delivered := delivered + [Packet(head, recv[at + HEAD_SIZE..at + pkgSize])];
          left := left[pkgSize..];
          bufferSize := bufferSize - pkgSize;
          at := at + pkgSize;
        } else {
          left := [];
          bufferSize := 0;
        }
      }
      ScanOfShort(left);
      assert delivered + [] == delivered;
      var size := buffer.GetCapacity();
      var popped := buffer.PopBuffer(size);
    }

    /** The read loop of a connection. `chunks` are the successive results of recv; the last
        recv either sees the peer close or fails. Keeps the connection iff errno says that no
        more data was there when the loop ended, by a failing recv or by a full buffer. */
    method HandleConnEvent(chunks: seq<seq<byte>>, closed: bool, errnoWouldBlock: bool) returns (keep: bool)
      requires Valid()
      requires forall c | c in chunks :: |c| <= TMP_BUFFER_SIZE
      requires errnoWouldBlock && (!closed || !AllFit(buffer.Contents(), chunks)) ==>
                 !Scan(Buffered(buffer.Contents(), chunks)).overrun
      modifies this, buffer, buffer.buffer, tmp
      ensures Valid()
      ensures keep ==> delivered == old(delivered) + Scan(Buffered(old(buffer.Contents()), chunks)).packets
      ensures keep ==> buffer.Contents() == []
      ensures !keep ==> delivered == old(delivered) && buffer.Contents() == Buffered(old(buffer.Contents()), chunks)
      ensures keep <==> errnoWouldBlock && (!closed || !AllFit(old(buffer.Contents()), chunks))
    {
      hide Scan, Buffered, AllFit;
      ghost var fits := AllFit(buffer.Contents(), chunks);
      ghost var goal := Buffered(buffer.Contents(), chunks);
      var received, i := 0, 0;
      assert chunks[0..] == chunks;
      while i < |chunks|
        invariant 0 <= i <= |chunks| && Valid() && delivered == old(delivered)
        invariant Buffered(buffer.Contents(), chunks[i..]) == goal
        invariant received == 0 && fits == AllFit(buffer.Contents(), chunks[i..])
      {
        FitRound(buffer.Contents(), chunks[i..]);
        BufferedRound(buffer.Contents(), chunks[i..]);
        assert chunks[i..][0] == chunks[i] && chunks[i..][1..] == chunks[i + 1..];
        CopyToTmp(chunks[i]);
        var added := buffer.AddBuffer(tmp, |chunks[i]|);
        if !added {
          received := -1;
          break;
        }
        i := i + 1;
      }
      if received == 0 {
        assert chunks[i..] == [];
        BufferedRound(buffer.Contents(), []);
        FitRound(buffer.Contents(), []);
      }
      if received == 0 && !closed {
        received := -1;
      }
      if received < 0 {
        if errnoWouldBlock {
          HandleReceivedMsg();
          return true;
        }
        return false;
      }
      return false;
    }

    /** recv fills the front of the temporary buffer. */
    method CopyToTmp(chunk: seq<byte>)
      requires |chunk| <= tmp.Length
      modifies tmp
      ensures tmp[..|chunk|] == chunk
    {
      for i := 0 to |chunk|
        invariant tmp[..i] == chunk[..i]
      {
        tmp[i] := chunk[i];
      }
    }
  }

  lemma FitRound(held: seq<byte>, chunks: seq<seq<byte>>)
    ensures AllFit(held, chunks) <==>
              chunks == [] || (|held| + |chunks[0]| <= MAX_BUFFER_SIZE && AllFit(held + chunks[0], chunks[1..]))
  {
  }

  lemma BufferedRound(held: seq<byte>, chunks: seq<seq<byte>>)
    ensures chunks == [] ==> Buffered(held, chunks) == held
    ensures chunks != [] && |held| + |chunks[0]| > MAX_BUFFER_SIZE ==> Buffered(held, chunks) == held
    ensures chunks != [] && |held| + |chunks[0]| <= MAX_BUFFER_SIZE ==>
              Buffered(held, chunks) == Buffered(held + chunks[0], chunks[1..])
  {
  }
}
