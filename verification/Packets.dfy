/** From a game message to a packet and back: Message::length, the serializers of head and
    message, and delivery of whole messages over a chunked byte stream. */
module Packets {
  import opened Basics
  import opened Bytes
  import opened Messages
  import opened Varint
  import opened WireFormat
  import opened WireMessages
  import opened WireNested
  import opened RingBuffers
  import opened Framing

  const FRAME: int32 := 70
  const USER_OPERATE: int32 := 71
  const CHASE_FRAME: int32 := 72
  const GAME_REPLAY: int32 := 73

  datatype Payload =
    | OperatePayload(operate: UserOperate)
    | FramePayload(frame: Frame)
    | ReplayPayload(replay: GameReplay)

  /** A message may have no body, or a body without a protobuf message. */
  datatype Body = NoBody | NullBody | Carries(payload: Payload)

  datatype Message = Message(head: Head, body: Body)

  function PayloadBytes(p: Payload): seq<byte> {
    match p
    case OperatePayload(m) => OperateBytes(m)
    case FramePayload(f) => FrameBytes(f)
    case ReplayPayload(r) => ReplayBytes(r)
  }

  function BodyBytes(b: Body): seq<byte> {
    if b.Carries? then PayloadBytes(b.payload) else []
  }

  /** The body type that CreateMessageBody picks for a packet type, parsed from an empty message. */
  function Decode(packageType: int, b: seq<byte>): Option<Payload> {
    if packageType == FRAME then
      match ReadFrame(EMPTY_FRAME, b)
      case None => None
      case Some(f) => Some(FramePayload(f))
    else if packageType == USER_OPERATE then
      match ReadOperate(EMPTY_OPERATE, b)
      case None => None
      case Some(m) => Some(OperatePayload(m))
    else if packageType == CHASE_FRAME || packageType == GAME_REPLAY then
      match ReadReplay(EMPTY_REPLAY, b)
      case None => None
      case Some(r) => Some(ReplayPayload(r))
    else None
  }

  predicate TypeFor(packageType: int, p: Payload) {
    match p
    case OperatePayload(_) => packageType == USER_OPERATE
    case FramePayload(_) => packageType == FRAME
    case ReplayPayload(_) => packageType == CHASE_FRAME || packageType == GAME_REPLAY
  }

  predicate PayloadFits(p: Payload) {
    match p
    case OperatePayload(m) => OperateFits(m)
    case FramePayload(f) => FrameFits(f)
    case ReplayPayload(r) => ReplayFits(r)
  }

  lemma PayloadRoundTrip(packageType: int, p: Payload)
    requires TypeFor(packageType, p) && PayloadFits(p) && |PayloadBytes(p)| <= INT_MAX
    ensures Decode(packageType, PayloadBytes(p)) == Some(p)
  {
    hide ReadFrame, ReadOperate, ReadReplay, FrameBytes, OperateBytes, ReplayBytes;
    match p
    case OperatePayload(m) => OperateRoundTrip(m);
    case FramePayload(f) => FrameRoundTrip(f);
    case ReplayPayload(r) => ReplayRoundTrip(r);
  }

  // ---- lengths and serializers ----

  method PayloadLength(p: Payload) returns (size: nat)
    requires |PayloadBytes(p)| <= INT_MAX
    ensures size == |PayloadBytes(p)|
  {
    hide OperateBytes, FrameBytes, ReplayBytes;
    match p
    case OperatePayload(m) =>
      var msg := FromOperate(m);
      PackedIsPart(m);
      size := msg.ByteSizeLong();
    case FramePayload(f) =>
      var msg := FromFrame(f);
      size := msg.ByteSizeLong();
    case ReplayPayload(r) =>
      var msg := new GameReplayMessage();
      msg.frames := r.frames;
      size := msg.ByteSizeLong();
  }

  method PutPayload(target: array<byte>, at: nat, p: Payload) returns (end: nat)
    requires at + |PayloadBytes(p)| <= target.Length
    modifies target
    ensures end == at + |PayloadBytes(p)|
    ensures Wrote(old(target[..]), target[..], at, PayloadBytes(p))
  {
    hide OperateBytes, FrameBytes, ReplayBytes, Wrote;
    match p
    case OperatePayload(m) =>
      var msg := FromOperate(m);
      end := msg.InternalSerialize(target, at);
    case FramePayload(f) =>
      var msg := FromFrame(f);
      end := msg.InternalSerialize(target, at);
    case ReplayPayload(r) =>
      var msg := new GameReplayMessage();
      msg.frames := r.frames;
      end := msg.InternalSerialize(target, at);
  }

  /** Message::length */
  method MessageLength(body: Body) returns (len: nat)
    requires |BodyBytes(body)| <= INT_MAX
    ensures len == HEAD_SIZE + |BodyBytes(body)|
  {
    hide PayloadBytes;
    if !body.Carries? { return HEAD_SIZE; }
    len := PayloadLength(body.payload);
    len := HEAD_SIZE + len;
  }

  /** MessageHead::SerailizeToArray */
  method PutHead(head: Head, buffer: array<byte>, len: nat) returns (ok: bool)
    requires len <= buffer.Length
    modifies buffer
    ensures ok <==> len >= HEAD_SIZE
    ensures ok ==> Wrote(old(buffer[..]), buffer[..], 0, HeadBytes(head))
    ensures !ok ==> buffer[..] == old(buffer[..])
  {
    if len < HEAD_SIZE { return false; }
    hide IntBytes, Wrote;
    ghost var before := buffer[..];
    var tmp := IntToByte(head.packageSize);
    PutFour(buffer, 0, tmp[..]);
    ghost var mid := buffer[..];
    tmp := IntToByte(head.packageType);
    PutFour(buffer, HEAD_SIZE_S, tmp[..]);
    WroteThen(before, mid, buffer[..], 0, IntBytes(head.packageSize), IntBytes(head.packageType));
    mid := buffer[..];
    tmp := UintToByte(ToUint32(head.userid));
    PutFour(buffer, 2 * HEAD_SIZE_S, tmp[..]);
    WroteThen(before, mid, buffer[..], 0, IntBytes(head.packageSize) + IntBytes(head.packageType),
              IntBytes(ToUint32(head.userid)));
    ok := true;
  }

  method PutFour(buffer: array<byte>, at: nat, tmp: seq<byte>)
    requires |tmp| == HEAD_SIZE_S && at + HEAD_SIZE_S <= buffer.Length
    modifies buffer
    ensures Wrote(old(buffer[..]), buffer[..], at, tmp)
  {
    for i := 0 to HEAD_SIZE_S
      invariant Wrote(old(buffer[..]), buffer[..], at, tmp[..i])
    {
      ghost var mid := buffer[..];
      buffer[at + i] := tmp[i];
      WroteByte(mid, at + i, tmp[i]);
      assert buffer[..] == mid[at + i := tmp[i]];
      WroteThen(old(buffer[..]), mid, buffer[..], at, tmp[..i], [tmp[i]]);
      assert tmp[..i + 1] == tmp[..i] + [tmp[i]];
    }
    assert tmp[..HEAD_SIZE_S] == tmp;
  }

  /** Message::SerializeToArray: refuses a buffer that is too short, and otherwise writes
      exactly head and body at the front of it. */
  method SerializeToArray(msg: Message, buffer: array<byte>, len: nat) returns (ok: bool)
    requires len <= buffer.Length && |BodyBytes(msg.body)| <= INT_MAX
    modifies buffer
    ensures ok <==> len >= HEAD_SIZE + |BodyBytes(msg.body)|
    ensures ok ==> Wrote(old(buffer[..]), buffer[..], 0, HeadBytes(msg.head) + BodyBytes(msg.body))
    ensures !ok ==> buffer[..] == old(buffer[..])
  {
    hide Wrote, HeadBytes, PayloadBytes;
    var length := MessageLength(msg.body);
    if len < length { return false; }
    ghost var before := buffer[..];
    var put := PutHead(msg.head, buffer, len);
    if !put { return false; }
    ghost var mid := buffer[..];
    ok := true;
    if msg.body.Carries? {
      var end := PutPayload(buffer, HEAD_SIZE, msg.body.payload);
    } else {
      WroteNothing(mid, HEAD_SIZE);
    }
    WroteThen(before, mid, buffer[..], 0, HeadBytes(msg.head), BodyBytes(msg.body));
  }

  // ---- messages over a stream ----

  /** What SendToClient puts on the wire: the head carries the total length. */
  datatype Outgoing = Outgoing(packageType: int32, userid: int32, payload: Payload)

  predicate Sendable(m: Outgoing) {
    && TypeFor(m.packageType, m.payload)
    && PayloadFits(m.payload)
    && HEAD_SIZE + |PayloadBytes(m.payload)| <= MAX_BUFFER_SIZE
  }

  function PacketOf(m: Outgoing): Packet
    requires Sendable(m)
  {
    Packet(Head(HEAD_SIZE + |PayloadBytes(m.payload)|, m.packageType, m.userid), PayloadBytes(m.payload))
  }

  function PacketsOf(ms: seq<Outgoing>): (ps: seq<Packet>)
    requires forall m | m in ms :: Sendable(m)
    ensures |ps| == |ms|
    ensures forall i | 0 <= i < |ms| :: ps[i] == PacketOf(ms[i])
  {
    if ms == [] then [] else [PacketOf(ms[0])] + PacketsOf(ms[1..])
  }

  lemma PacketIsValid(m: Outgoing)
    requires Sendable(m)
    ensures ValidPacket(PacketOf(m))
  {
    hide PayloadBytes;
  }

  /** End to end: messages that are sent one after the other, cut into chunks in any way, come
      out of the receive buffer as the same messages to the same users, and nothing else. */
  lemma MessagesSurviveTheStream(ms: seq<Outgoing>, chunks: seq<seq<byte>>)
    requires forall m | m in ms :: Sendable(m)
    requires Concat(chunks) == EncodeAll(PacketsOf(ms)) && |Concat(chunks)| <= MAX_BUFFER_SIZE
    ensures var r := Scan(Buffered([], chunks));
      && !r.overrun && r.dropped == [] && |r.packets| == |ms|
      && forall i | 0 <= i < |ms| ::
           && r.packets[i].head.userid == ms[i].userid
           && r.packets[i].head.packageType == ms[i].packageType
           && Decode(r.packets[i].head.packageType, r.packets[i].body) == Some(ms[i].payload)
  {
    hide Scan, EncodeAll, Decode, PayloadBytes, PayloadFits, TypeFor, Buffered, Concat;
    var ps := PacketsOf(ms);
    forall p | p in ps
      ensures ValidPacket(p)
    {
      var i :| 0 <= i < |ps| && ps[i] == p;
      PacketIsValid(ms[i]);
    }
    FramingOfChunks(ps, chunks);
    forall i | 0 <= i < |ms|
      ensures Decode(ps[i].head.packageType, ps[i].body) == Some(ms[i].payload)
    {
      assert Sendable(ms[i]);
      PayloadRoundTrip(ms[i].packageType, ms[i].payload);
    }
  }
}
