/** The message format of core/: a 12-byte header and a body whose layout the command
    selects; some bodies carry whole messages again. */
module Protocol {
  import opened Bytes

  const MSG_IM := 4
  const MSG_ACK := 5
  const MSG_GROUP_NOTIFICATION := 7
  const MSG_GROUP_IM := 8
  const MSG_PING := 13
  const MSG_PONG := 14
  const MSG_AUTH_TOKEN := 15
  const MSG_RT := 17
  const MSG_ENTER_ROOM := 18
  const MSG_LEAVE_ROOM := 19
  const MSG_ROOM_IM := 20
  const MSG_SYSTEM := 21
  const MSG_UNREAD_COUNT := 22
  const MSG_CUSTOMER_SERVICE_ := 23
  const MSG_CUSTOMER := 24
  const MSG_CUSTOMER_SUPPORT := 25
  const MSG_SYNC := 26
  const MSG_SYNC_GROUP := 30
  const MSG_SYNC_KEY := 34
  const MSG_GROUP_SYNC_KEY := 35
  const MSG_NOTIFICATION := 36
  const MSG_METADATA := 37
  const MSG_SUBSCRIBE := 130
  const MSG_UNSUBSCRIBE := 131
  const MSG_PUBLISH := 132
  const MSG_PUSH := 134
  const MSG_PUBLISH_GROUP := 135
  const MSG_SUBSCRIBE_ROOM := 136
  const MSG_UNSUBSCRIBE_ROOM := 137
  const MSG_PUBLISH_ROOM := 138
  const MSG_STORAGE_SYNC_BEGIN := 220
  const MSG_STORAGE_SYNC_MESSAGE := 221
  const MSG_STORAGE_SYNC_MESSAGE_BATCH := 222
  const MSG_GROUP_OFFLINE := 247
  const MSG_OFFLINE_V4 := 248
  const MSG_OFFLINE_V3 := 249
  const MSG_OFFLINE_V2 := 250
  const MSG_PENDING_GROUP_MESSAGE := 251
  const MSG_GROUP_IM_LIST := 252
  const MSG_GROUP_ACK_IN := 253
  const MSG_OFFLINE := 254
  const MSG_ACK_IN := 255

  const MSG_HEADER_SIZE := 12
  const DEFAULT_VERSION := 2
  const MESSAGE_FLAG_GROUP := 4

  /** Size limits of `ReceiveMessage` and its relatives. */
  const MESSAGE_LIMIT := 32 * 1024
  const STORAGE_LIMIT := 1024 * 1024
  const SYNC_LIMIT := 32 * 1024 * 1024

  /** Commands a client may send. */
  const EXTERNAL_MESSAGES: set<int> := {15, 4, 5, 8, 13, 14, 17, 18, 19, 20, 22, 24, 25, 26, 30, 34, 35, 37}

  /** The layouts a command can select. */
  datatype Layout =
    | NoLayout | IgnoreLayout | RawLayout | TextLayout | IMLayout | CustomerLayout | Offline3Layout | Offline4Layout
    | PendingLayout | CursorLayout | EMessageLayout | BatchLayout | PushLayout | AppLayout
    | SubscribeLayout | UserLayout | RoomLayout

  /** The tables `message_creators` and `vmessage_creators`. The commands of the raw layout are those whose
      body this model keeps as plain bytes. */
  function LayoutOf(cmd: int): (r: Layout) {
    if cmd == MSG_OFFLINE_V4 || cmd == MSG_GROUP_OFFLINE then Offline4Layout
    else if cmd == MSG_OFFLINE_V3 then Offline3Layout
    else if cmd == MSG_IM || cmd == MSG_GROUP_IM then IMLayout
    else if cmd == MSG_CUSTOMER || cmd == MSG_CUSTOMER_SUPPORT then CustomerLayout
    else if cmd == MSG_SYSTEM || cmd == MSG_NOTIFICATION || cmd == MSG_GROUP_NOTIFICATION then TextLayout
    else if cmd == MSG_CUSTOMER_SERVICE_ || cmd == MSG_GROUP_ACK_IN || cmd == MSG_ACK_IN then IgnoreLayout
    else if cmd == MSG_PENDING_GROUP_MESSAGE then PendingLayout
    else if cmd == MSG_STORAGE_SYNC_BEGIN then CursorLayout
    else if cmd == MSG_STORAGE_SYNC_MESSAGE then EMessageLayout
    else if cmd == MSG_STORAGE_SYNC_MESSAGE_BATCH then BatchLayout
    else if cmd == MSG_PUSH then PushLayout
    else if cmd == MSG_PUBLISH || cmd == MSG_PUBLISH_GROUP || cmd == MSG_PUBLISH_ROOM then AppLayout
    else if cmd == MSG_SUBSCRIBE then SubscribeLayout
    else if cmd == MSG_UNSUBSCRIBE then UserLayout
    else if cmd == MSG_SUBSCRIBE_ROOM || cmd == MSG_UNSUBSCRIBE_ROOM then RoomLayout
    else if cmd in {3, 5, 15, 17, 18, 19, 20, 22, 26, 27, 28, 29, 30, 31, 32, 33, 34, 35, 37, 64, 250, 252, 254}
    then RawLayout
    else NoLayout
  }

  datatype Message = Message(cmd: int, seqNo: int, version: int, flag: int, body: Body)

  datatype Offline = Offline(
    appid: Int64, receiver: Int64, msgid: Int64, deviceId: Int64,
    seqId: Int64, prevMsgid: Int64, prevPeerMsgid: Int64, prevBatchMsgid: Int64)

  datatype Body =
    | NoBody
    | Ignore
    | Raw(data: seq<Byte>)
    | Text(notification: seq<Byte>)
    | IM(sender: Int64, receiver: Int64, timestamp: Int32, localId: Int32, content: seq<Byte>)
    | Customer(customerAppid: Int64, customerId: Int64, storeId: Int64, sellerId: Int64,
               timestamp: Int32, content: seq<Byte>)
    | Offline3(off: Offline)
    | Offline4(off: Offline)
    | PendingGroup(appid: Int64, groupSender: Int64, deviceId: Int64, gid: Int64,
                   timestamp: Int32, members: seq<Int64>, content: seq<Byte>)
    | SyncCursor(cursor: Int64)
    | EMessage(msgid: Int64, deviceId: Int64, msg: Message)
    | MessageBatch(firstId: Int64, lastId: Int64, msgs: seq<Message>)
    | BatchPush(appid: Int64, receivers: seq<Int64>, msg: Message)
    | AppMessage(appid: Int64, appReceiver: Int64, msgid: Int64, prevMsgid: Int64,
                 deviceId: Int64, sentAt: Int64, msg: Message)
    | Subscribe(appid: Int64, uid: Int64, online: Int8)
    | AppUser(appid: Int64, uid: Int64)
    | AppRoom(appid: Int64, roomId: Int64)

  // ---------- encoding ----------

  /** `Message.ToData`: the body's own type selects the layout. */
  function Encode(body: Body, version: int): (r: seq<Byte>)
    decreases body, 1
  {
    match body
    case NoBody => []
    case Ignore => []
    case Raw(data) => data
    case Text(text) => text
    case IM(sender, receiver, timestamp, localId, content) =>
      if version == 0 then Put64s([sender, receiver]) + Put32(localId) + content
      else Put64s([sender, receiver]) + Put32(timestamp) + Put32(localId) + content
    case Customer(a, c, st, se, timestamp, content) =>
      Put64s([a, c, st, se]) + Put32(timestamp) + content
    case Offline3(o) =>
      Put64s([o.appid, o.receiver, o.msgid, o.deviceId, o.prevMsgid, o.prevPeerMsgid, o.prevBatchMsgid])
    case Offline4(o) =>
      Put64s([o.appid, o.receiver, o.msgid, o.deviceId, o.seqId, o.prevMsgid, o.prevPeerMsgid, o.prevBatchMsgid])
    case PendingGroup(appid, sender, deviceId, gid, timestamp, members, content) =>
      Put64s([appid, sender, deviceId, gid]) + Put32(timestamp) + Put16(|members|) + Put64s(members) + content
    case SyncCursor(cursor) => Put64s([cursor])
    case EMessage(msgid, deviceId, msg) =>
      Put64s([msgid, deviceId]) + Put16(|Frame(msg)|) + Frame(msg)
    case MessageBatch(firstId, lastId, msgs) =>
      Put64s([firstId, lastId]) + Put32(|msgs|) + Frames(msgs)
    case BatchPush(appid, receivers, msg) =>
      Put64s([appid]) + Put16(|receivers|) + Put64s(receivers) + Put16(|Frame(msg)|) + Frame(msg)
    case AppMessage(appid, receiver, msgid, _, deviceId, sentAt, msg) =>
      Put64s([appid, receiver, msgid, deviceId, sentAt]) + Put16(|Frame(msg)|) + Frame(msg)
    case Subscribe(appid, uid, online) => Put64s([appid, uid]) + Put8(online)
    case AppUser(appid, uid) => Put64s([appid, uid])
    case AppRoom(appid, roomId) => Put64s([appid, roomId])
  }

  /** `WriteHeader`. */
  function Header(length: int, m: Message): (h: seq<Byte>)
    ensures |h| == MSG_HEADER_SIZE
  {
    Put32(length) + Put32(m.seqNo) + [m.cmd % 256, m.version % 256, m.flag % 256, 0]
  }

  /** `WriteMessage`: what a message looks like in a buffer. */
  function Frame(m: Message): (f: seq<Byte>)
    ensures |f| >= MSG_HEADER_SIZE
    decreases m, 2
  {
    var body := Encode(m.body, m.version);
    Header(|body|, m) + body
  }

  function Frames(msgs: seq<Message>): (r: seq<Byte>)
    decreases msgs, 0
  {
    if msgs == [] then [] else Frame(msgs[0]) + Frames(msgs[1..])
  }

  // ---------- decoding ----------

  datatype Received = Received(msg: Message, size: nat)

  /** `ReceiveLimitMessage`: the next message of a stream and the bytes it took. */
  function Receive(s: seq<Byte>, limit: int, external: bool): (r: Option<Received>)
    ensures r.Some? ==> MSG_HEADER_SIZE <= r.value.size <= |s|
    decreases |s|, 1
  {
    if |s| < MSG_HEADER_SIZE then None else
    var length := Get32(s[0..4]);
    if length < 0 || length >= limit then None else
    var cmd := s[8];
    if external && cmd !in EXTERNAL_MESSAGES then None else
    if |s| - MSG_HEADER_SIZE < length then None else
    match Decode(cmd, s[9], s[12..12 + length])
    case None => None
    case Some(body) => Some(Received(Message(cmd, Get32(s[4..8]), s[9], s[10], body), 12 + length))
  }

  /** A nested message behind its int16 length at position `at`. */
  function Nested(b: seq<Byte>, at: nat): (r: Option<Message>)
    requires 0 < at && at + 2 <= |b|
    decreases |b|, 0
  {
    var l := Get16(b[at..at + 2]);
    if l < 0 || l > |b| - at - 2 then None else
    match Receive(b[at + 2..at + 2 + l], MESSAGE_LIMIT, false)
    case None => None
    case Some(got) => Some(got.msg)
  }

  /** The messages of a batch, one after the other. */
  function ReceiveAll(s: seq<Byte>, count: nat): (r: Option<seq<Message>>)
    decreases |s|, 2, count
  {
    if count == 0 then Some([]) else
    match Receive(s, MESSAGE_LIMIT, false)
    case None => None
    case Some(got) =>
      match ReceiveAll(s[got.size..], count - 1)
      case None => None
      case Some(rest) => Some([got.msg] + rest)
  }

  /** `Message.FromData`: the command selects the layout. A decoder that panics in Go yields None. */
  function Decode(cmd: int, version: int, b: seq<Byte>): (r: Option<Body>)
    decreases |b|, 3
  {
    match LayoutOf(cmd)
    case NoLayout => if b == [] then Some(NoBody) else None
    case IgnoreLayout => Some(Ignore)
    case RawLayout => Some(Raw(b))
    case TextLayout => Some(Text(b))
    case IMLayout =>
      if version == 0 then
        if |b| < 20 then None else Some(IM(Slot(b, 0), Slot(b, 1), 0, Get32(b[16..20]), b[20..]))
      else
        if |b| < 24 then None else Some(IM(Slot(b, 0), Slot(b, 1), Get32(b[16..20]), Get32(b[20..24]), b[24..]))
    case CustomerLayout =>
      if |b| < 36 then None else
      Some(Customer(Slot(b, 0), Slot(b, 1), Slot(b, 2), Slot(b, 3), Get32(b[32..36]), b[36..]))
    case Offline3Layout =>
      if |b| < 56 then None else
      Some(Offline3(Offline(Slot(b, 0), Slot(b, 1), Slot(b, 2), Slot(b, 3),
                            0, Slot(b, 4), Slot(b, 5), Slot(b, 6))))
    case Offline4Layout =>
      if |b| < 64 then None else
      Some(Offline4(Offline(Slot(b, 0), Slot(b, 1), Slot(b, 2), Slot(b, 3),
                            Slot(b, 4), Slot(b, 5), Slot(b, 6), Slot(b, 7))))
    case PendingLayout => DecodePending(b)
    case CursorLayout => if |b| < 8 then None else Some(SyncCursor(Slot(b, 0)))
    case EMessageLayout => (
      if |b| < 18 then None else
      match Nested(b, 16)
      case None => None
      case Some(m) => Some(EMessage(Slot(b, 0), Slot(b, 1), m)))
    case BatchLayout => (
      if |b| < 18 then None else
      if |b| < 20 then Some(MessageBatch(Slot(b, 0), Slot(b, 1), [])) else
      var count := Get32(b[16..20]);
      if count < 0 then None else
      match ReceiveAll(b[20..], count)
      case None => None
      case Some(msgs) => Some(MessageBatch(Slot(b, 0), Slot(b, 1), msgs)))
    case PushLayout => (
      if |b| < 12 then None else
      var count := GetU16(b[8..10]);
      if |b| < 12 + 8 * count then None else
      match Nested(b, 10 + 8 * count)
      case None => None
      case Some(m) => Some(BatchPush(Slot(b, 0), Slots(b[10..], count), m)))
    case AppLayout => (
      if |b| < 42 then None else
      match Nested(b, 40)
      case None => None
      case Some(m) => Some(AppMessage(Slot(b, 0), Slot(b, 1), Slot(b, 2), 0, Slot(b, 3), Slot(b, 4), m)))
    case SubscribeLayout => if |b| < 17 then None else Some(Subscribe(Slot(b, 0), Slot(b, 1), Get8(b[16..17])))
    case UserLayout => if |b| < 16 then None else Some(AppUser(Slot(b, 0), Slot(b, 1)))
    case RoomLayout => if |b| < 16 then None else Some(AppRoom(Slot(b, 0), Slot(b, 1)))
  }

  /** The first `count` int64s of a buffer. */
  function Slots(s: seq<Byte>, count: nat): (r: seq<Int64>) { seq(count, i requires 0 <= i < count => Slot(s, i)) }

  /** `PendingGroupMessage.FromData`: the end of the member list is computed in int16. */
  function DecodePending(b: seq<Byte>): (r: Option<Body>)
  {
    if |b| < 38 then None else
    var count := Get16(b[36..38]);
    var end := ToInt16(38 + count * 8);
    if |b| < end || count < 0 || end < 0 then None else
    Some(PendingGroup(Slot(b, 0), Slot(b, 1), Slot(b, 2), Slot(b, 3), Get32(b[32..36]),
                      Slots(b[38..], count), b[end..]))
  }

  // ---------- when decoding undoes encoding ----------

  /** The layout of a body's own type. */
  function LayoutOfBody(body: Body): (r: Layout) {
    match body
    case NoBody => NoLayout
    case Ignore => IgnoreLayout
    case Raw(_) => RawLayout
    case Text(_) => TextLayout
    case IM(_, _, _, _, _) => IMLayout
    case Customer(_, _, _, _, _, _) => CustomerLayout
    case Offline3(_) => Offline3Layout
    case Offline4(_) => Offline4Layout
    case PendingGroup(_, _, _, _, _, _, _) => PendingLayout
    case SyncCursor(_) => CursorLayout
    case EMessage(_, _, _) => EMessageLayout
    case MessageBatch(_, _, _) => BatchLayout
    case BatchPush(_, _, _) => PushLayout
    case AppMessage(_, _, _, _, _, _, _) => AppLayout
    case Subscribe(_, _, _) => SubscribeLayout
    case AppUser(_, _) => UserLayout
    case AppRoom(_, _) => RoomLayout
  }

  /** Everything the fields of a message must satisfy to survive a trip through the wire. */
  predicate Fits(m: Message)
    decreases m, 1
  {
    && 0 <= m.cmd < 256 && 0 <= m.version < 256 && 0 <= m.flag < 256
    && -0x8000_0000 <= m.seqNo < 0x8000_0000
    && LayoutOfBody(m.body) == LayoutOf(m.cmd)
    && BodyFits(m.body, m.version)
  }

  predicate BodyFits(body: Body, version: int)
    decreases body, 0
  {
    match body
    case IM(_, _, timestamp, _, _) => version == 0 ==> timestamp == 0
    case Offline3(off) => off.seqId == 0
    case PendingGroup(_, _, _, _, _, members, _) => |members| <= 4091
    case EMessage(_, _, msg) => Fits(msg) && |Frame(msg)| <= 0x7fff
    case MessageBatch(_, _, msgs) =>
      forall m :: m in msgs ==> Fits(m) && |Encode(m.body, m.version)| < MESSAGE_LIMIT
    case BatchPush(_, receivers, msg) => |receivers| <= 0xffff && Fits(msg) && |Frame(msg)| <= 0x7fff
    case AppMessage(_, _, _, prevMsgid, _, _, msg) => prevMsgid == 0 && Fits(msg) && |Frame(msg)| <= 0x7fff
    case _ => true
  }
}
