/** Messages byte by byte: where each field of a frame and of a body stands, which command goes with which body, and
    which commands are accepted from clients. */
module WireFormat {
  import opened Bytes
  import opened Protocol
  import opened Codec

  // ---------- integers ----------

  /** The most significant byte comes first. */
  lemma BigEndian(x: int)
    ensures Put16(x) == [x / 0x100 % 0x100, x % 0x100]
    ensures Put32(x) == [x / 0x100_0000 % 0x100, x / 0x1_0000 % 0x100, x / 0x100 % 0x100, x % 0x100]
    ensures Put64(x) == Put32(x / 0x1_0000_0000) + Put32(x)
  {
    hide PutUint;
    Pairs(x % 0x1_0000);
    Quads(x % 0x1_0000_0000);
    Octets(x % 0x1_0000_0000_0000_0000);
    Words(x);
  }

  /** The low bytes of a number are those of its remainder. */
  lemma Words(x: int)
    ensures x % 0x1_0000 / 0x100 == x / 0x100 % 0x100 && x % 0x1_0000 % 0x100 == x % 0x100
    ensures SameLow(x % 0x1_0000_0000, x) && SameLow(x % 0x1_0000_0000_0000_0000, x)
    ensures x % 0x1_0000_0000_0000_0000 / 0x1_0000_0000 == x / 0x1_0000_0000 % 0x1_0000_0000
  {
    hide SameLow;
    var q, y := x / 0x1_0000_0000, x % 0x1_0000_0000;
    assert x == y + 0x1_0000_0000 * q;
    Low(y, q);
    LowWord(x);
    HighWord(x);
  }

  lemma LowWord(x: int)
    ensures x % 0x1_0000 / 0x100 == x / 0x100 % 0x100 && x % 0x1_0000 % 0x100 == x % 0x100
  {
    var q, y := x / 0x1_0000, x % 0x1_0000;
    assert x / 0x100 == y / 0x100 + 0x100 * q;
    Mod(y / 0x100, q);
    assert x == y + 0x100 * (0x100 * q);
    Mod(y, 0x100 * q);
  }

  lemma HighWord(x: int)
    ensures var z := x % 0x1_0000_0000_0000_0000;
      SameLow(z, x) && z / 0x1_0000_0000 == x / 0x1_0000_0000 % 0x1_0000_0000
  {
    hide SameLow;
    var q, z := x / 0x1_0000_0000_0000_0000, x % 0x1_0000_0000_0000_0000;
    assert x == z + 0x1_0000_0000 * (0x1_0000_0000 * q);
    Low(z, 0x1_0000_0000 * q);
    assert x / 0x1_0000_0000 == z / 0x1_0000_0000 + 0x1_0000_0000 * q;
    assert 0 <= z / 0x1_0000_0000 < 0x1_0000_0000;
  }

  predicate SameLow(y: int, x: int) {
    && y / 0x100_0000 % 0x100 == x / 0x100_0000 % 0x100 && y / 0x1_0000 % 0x100 == x / 0x1_0000 % 0x100
    && y / 0x100 % 0x100 == x / 0x100 % 0x100 && y % 0x100 == x % 0x100
  }

  lemma Low(y: int, q: int)
    ensures SameLow(y, y + 0x1_0000_0000 * q)
  {
    var x := y + 0x1_0000_0000 * q;
    assert x / 0x100_0000 == y / 0x100_0000 + 0x100 * q;
    assert x / 0x1_0000 == y / 0x1_0000 + 0x100 * (0x100 * q);
    assert x / 0x100 == y / 0x100 + 0x100 * (0x1_0000 * q);
    assert x == y + 0x100 * (0x100_0000 * q);
    Mod(y / 0x100_0000, q);
    Mod(y / 0x1_0000, 0x100 * q);
    Mod(y / 0x100, 0x1_0000 * q);
    Mod(y, 0x100_0000 * q);
  }

  lemma Mod(y: int, q: int)
    ensures (y + 0x100 * q) % 0x100 == y % 0x100
  {
  }

  lemma LastByte(n: nat, w: nat)
    requires w > 0
    ensures PutUint(n, w) == PutUint(n / 0x100, w - 1) + [n % 0x100]
  {
  }

  lemma Pairs(n: nat)
    ensures PutUint(n, 2) == [n / 0x100 % 0x100, n % 0x100]
  {
    assert PutUint(n / 0x100, 1) == PutUint(n / 0x100 / 0x100, 0) + [n / 0x100 % 0x100];
  }

  lemma LowPair(n: nat, w: nat)
    requires w > 1
    ensures PutUint(n, w) == PutUint(n / 0x1_0000, w - 2) + [n / 0x100 % 0x100, n % 0x100]
  {
    hide PutUint;
    LastByte(n, w);
    LastByte(n / 0x100, w - 1);
    assert n / 0x100 / 0x100 == n / 0x1_0000;
  }

  lemma Quads(n: nat)
    ensures PutUint(n, 4) == [n / 0x100_0000 % 0x100, n / 0x1_0000 % 0x100, n / 0x100 % 0x100, n % 0x100]
  {
    hide PutUint;
    LowPair(n, 4);
    Pairs(n / 0x1_0000);
    assert n / 0x1_0000 / 0x100 == n / 0x100_0000;
  }

  lemma Octets(n: nat)
    ensures PutUint(n, 8) == PutUint(n / 0x1_0000_0000, 4)
      + [n / 0x100_0000 % 0x100, n / 0x1_0000 % 0x100, n / 0x100 % 0x100, n % 0x100]
  {
    hide PutUint;
    LowPair(n, 8);
    LowPair(n / 0x1_0000, 6);
    assert n / 0x1_0000 / 0x1_0000 == n / 0x1_0000_0000 && n / 0x1_0000 / 0x100 == n / 0x100_0000;
  }

  /** And is read as such. */
  lemma ReadBigEndian(s: seq<Byte>)
    ensures |s| == 2 ==> GetU16(s) == s[0] as int * 0x100 + s[1] && Get16(s) == ToInt16(s[0] as int * 0x100 + s[1])
    ensures |s| == 4 ==>
      Get32(s) == ToInt32(s[0] as int * 0x100_0000 + s[1] as int * 0x1_0000 + s[2] as int * 0x100 + s[3])
  {
    if |s| == 2 {
      ReadPair(s);
    } else if |s| == 4 {
      ReadPair(s[..2]);
      assert s[..3][..2] == s[..2];
      assert GetUint(s[..3]) == 0x100 * GetUint(s[..2]) + s[2];
    }
  }

  lemma ReadPair(s: seq<Byte>)
    requires |s| == 2
    ensures GetUint(s) == s[0] as int * 0x100 + s[1]
  {
    assert GetUint(s[..1]) == 0x100 * GetUint(s[..1][..0]) + s[0];
  }

  // ---------- frames ----------

  /** The length of the body, the number of the message, one byte each for command, version and flag, a zero, and the
      body. */
  lemma FrameBytes(m: Message)
    ensures var f, length := Frame(m), |Encode(m.body, m.version)|;
      && |f| == 12 + length
      && f[0] == length / 0x100_0000 % 0x100 && f[1] == length / 0x1_0000 % 0x100
      && f[2] == length / 0x100 % 0x100 && f[3] == length % 0x100
      && f[4] == m.seqNo / 0x100_0000 % 0x100 && f[5] == m.seqNo / 0x1_0000 % 0x100
      && f[6] == m.seqNo / 0x100 % 0x100 && f[7] == m.seqNo % 0x100
      && f[8] == m.cmd % 0x100 && f[9] == m.version % 0x100 && f[10] == m.flag % 0x100 && f[11] == 0
      && f[12..] == Encode(m.body, m.version)
  {
    hide Encode, Put32;
    BigEndian(|Encode(m.body, m.version)|);
    BigEndian(m.seqNo);
  }

  // ---------- commands ----------

  /** What a client may send. */
  predicate IsClientCommand(cmd: int) {
    || cmd == MSG_AUTH_TOKEN || cmd == MSG_IM || cmd == MSG_ACK || cmd == MSG_GROUP_IM || cmd == MSG_PING
    || cmd == MSG_PONG || cmd == MSG_RT || cmd == MSG_ENTER_ROOM || cmd == MSG_LEAVE_ROOM || cmd == MSG_ROOM_IM
    || cmd == MSG_UNREAD_COUNT || cmd == MSG_CUSTOMER || cmd == MSG_CUSTOMER_SUPPORT || cmd == MSG_SYNC
    || cmd == MSG_SYNC_GROUP || cmd == MSG_SYNC_KEY || cmd == MSG_GROUP_SYNC_KEY || cmd == MSG_METADATA
  }

  /** From a client's connection exactly the messages with these commands are received, in whatever stream they
      come; anything else ends the connection. */
  lemma ClientStream(s: seq<Byte>, limit: int)
    ensures Receive(s, limit, true) ==
      if |s| >= 12 && IsClientCommand(s[8]) then Receive(s, limit, false) else None
  {
    hide Decode, Get32;
  }

  /** So a client's message arrives. */
  lemma ClientMessages(m: Message, rest: seq<Byte>, limit: int)
    requires Fits(m) && |Encode(m.body, m.version)| < limit <= 0x8000_0000
    ensures Receive(Frame(m) + rest, limit, true) ==
      if IsClientCommand(m.cmd) then Some(Received(m, |Frame(m)|)) else None
    ensures Receive(Frame(m) + rest, limit, true) == Some(Received(m, |Frame(m)|)) <==>
      m.cmd in {4, 5, 8, 13, 14, 15, 17, 18, 19, 20, 22, 24, 25, 26, 30, 34, 35, 37}
  {
    hide Receive, Encode, Frame, BodyFits, LayoutOf;
    RoundTrip(m, rest, limit);
    FrameBytes(m);
    var s := Frame(m) + rest;
    assert s[8] == Frame(m)[8] == m.cmd;
    ClientStream(s, limit);
  }

  /** One of the servers' own does not: neither of routing, nor of replication, nor of the queues and the journal, nor
      what only servers send to clients. */
  lemma ServerMessages(m: Message, rest: seq<Byte>, limit: int)
    requires
      || m.cmd in {MSG_SUBSCRIBE, MSG_UNSUBSCRIBE, MSG_PUBLISH, MSG_PUSH, MSG_PUBLISH_GROUP, MSG_SUBSCRIBE_ROOM,
                   MSG_UNSUBSCRIBE_ROOM, MSG_PUBLISH_ROOM}
      || m.cmd in {MSG_STORAGE_SYNC_BEGIN, MSG_STORAGE_SYNC_MESSAGE, MSG_STORAGE_SYNC_MESSAGE_BATCH}
      || m.cmd in {MSG_GROUP_OFFLINE, MSG_OFFLINE_V4, MSG_OFFLINE_V3, MSG_OFFLINE_V2, MSG_PENDING_GROUP_MESSAGE,
                   MSG_GROUP_IM_LIST, MSG_GROUP_ACK_IN, MSG_OFFLINE, MSG_ACK_IN}
      || m.cmd in {MSG_GROUP_NOTIFICATION, MSG_SYSTEM, MSG_NOTIFICATION, MSG_CUSTOMER_SERVICE_}
    ensures Receive(Frame(m) + rest, limit, true) == None
  {
    hide Receive, Encode, Frame;
    FrameBytes(m);
    ClientStream(Frame(m) + rest, limit);
  }

  /** Which command goes with which body. */
  lemma CommandsOfBodies(m: Message)
    ensures Fits(m) ==>
      match m.body
      case NoBody => m.cmd !in {4, 7, 8, 21, 23, 24, 25, 36} && !(130 <= m.cmd <= 138 && m.cmd != 133)
        && !(220 <= m.cmd <= 222) && !(247 <= m.cmd <= 255)
      case Ignore => m.cmd in {23, 253, 255}
      case Raw(_) =>
        m.cmd in {3, 5, 15, 17, 18, 19, 20, 22, 26, 27, 28, 29, 30, 31, 32, 33, 34, 35, 37, 64, 250, 252, 254}
      case Text(_) => m.cmd in {7, 21, 36}
      case IM(_, _, _, _, _) => m.cmd in {4, 8}
      case Customer(_, _, _, _, _, _) => m.cmd in {24, 25}
      case Offline3(_) => m.cmd == 249
      case Offline4(_) => m.cmd in {247, 248}
      case PendingGroup(_, _, _, _, _, _, _) => m.cmd == 251
      case SyncCursor(_) => m.cmd == 220
      case EMessage(_, _, _) => m.cmd == 221
      case MessageBatch(_, _, _) => m.cmd == 222
      case BatchPush(_, _, _) => m.cmd == 134
      case AppMessage(_, _, _, _, _, _, _) => m.cmd in {132, 135, 138}
      case Subscribe(_, _, _) => m.cmd == 130
      case AppUser(_, _) => m.cmd == 131
      case AppRoom(_, _) => m.cmd in {136, 137}
  {
    hide BodyFits;
  }

  /** How long a body must be to be decoded at all, command by command. */
  lemma ShortBodies(cmd: int, version: int, b: seq<Byte>)
    ensures var read := Decode(cmd, version, b).Some?;
      && (cmd in {4, 8} ==> (read <==> |b| >= if version == 0 then 20 else 24))
      && (cmd in {24, 25} ==> (read <==> |b| >= 36))
      && (cmd in {247, 248} ==> (read <==> |b| >= 64)) && (cmd == 249 ==> (read <==> |b| >= 56))
      && (cmd in {131, 136, 137} ==> (read <==> |b| >= 16)) && (cmd == 130 ==> (read <==> |b| >= 17))
      && (cmd == 220 ==> (read <==> |b| >= 8))
      && (cmd in {7, 21, 36, 23, 253, 255} ==> read)
      && (read && cmd == 251 ==> |b| >= 38)
      && (read && cmd == 221 ==> |b| >= 30) && (read && cmd in {132, 135, 138} ==> |b| >= 54)
      && (read && cmd == 134 ==> |b| >= 24) && (read && cmd == 222 ==> |b| >= 18)
  {
    hide Receive, ReceiveAll, Slot, Slots, Get32, GetU16, Get16, Get8;
    NestedNeeds(b);
  }

  /** A nested message needs a frame of its own. */
  lemma NestedNeeds(b: seq<Byte>)
    ensures forall at: nat :: 0 < at && at + 2 <= |b| && Nested(b, at).Some? ==> |b| >= at + 14
  {
    hide Get16, Decode, Get32;
  }

  // ---------- bodies ----------

  /** Eight bytes each, from the start. */
  predicate Begins(b: seq<Byte>, xs: seq<Int64>) {
    |b| >= 8 * |xs| && forall i :: 0 <= i < |xs| ==> Slot(b, i) == xs[i]
  }

  /** A message in a body stands behind its length. */
  ghost predicate HoldsAt(b: seq<Byte>, at: nat, m: Message) {
    |b| == at + 2 + |Frame(m)| && GetU16(b[at..at + 2]) == |Frame(m)| % 0x1_0000 && b[at + 2..] == Frame(m)
  }

  /** Where the fields of a body stand. */
  ghost predicate LaidOut(b: seq<Byte>, body: Body, version: int) {
    match body
    case NoBody => b == []
    case Ignore => b == []
    case Raw(data) => b == data
    case Text(text) => b == text
    case IM(sender, receiver, timestamp, localId, content) => (
      Begins(b, [sender, receiver]) &&
      if version == 0 then |b| == 20 + |content| && Get32(b[16..20]) == localId && b[20..] == content
      else |b| == 24 + |content| && Get32(b[16..20]) == timestamp && Get32(b[20..24]) == localId && b[24..] == content)
    case Customer(customerAppid, customer, store, seller, timestamp, content) =>
      && |b| == 36 + |content| && Begins(b, [customerAppid, customer, store, seller])
      && Get32(b[32..36]) == timestamp && b[36..] == content
    case Offline3(o) =>
      && |b| == 56
      && Begins(b, [o.appid, o.receiver, o.msgid, o.deviceId, o.prevMsgid, o.prevPeerMsgid, o.prevBatchMsgid])
    case Offline4(o) =>
      && |b| == 64
      && Begins(b, [o.appid, o.receiver, o.msgid, o.deviceId, o.seqId, o.prevMsgid, o.prevPeerMsgid, o.prevBatchMsgid])
    case PendingGroup(appid, sender, deviceId, gid, timestamp, members, content) =>
      && |b| == 38 + 8 * |members| + |content| && Begins(b, [appid, sender, deviceId, gid])
      && Get32(b[32..36]) == timestamp && GetU16(b[36..38]) == |members| % 0x1_0000
      && Begins(b[38..], members) && b[38 + 8 * |members|..] == content
    case SyncCursor(cursor) => |b| == 8 && Begins(b, [cursor])
    case EMessage(msgid, deviceId, msg) => Begins(b, [msgid, deviceId]) && HoldsAt(b, 16, msg)
    case MessageBatch(firstId, lastId, msgs) =>
      |b| >= 20 && Begins(b, [firstId, lastId]) && Get32(b[16..20]) == ToInt32(|msgs|) && b[20..] == Frames(msgs)
    case BatchPush(appid, receivers, msg) =>
      && |b| >= 10 && Begins(b, [appid]) && GetU16(b[8..10]) == |receivers| % 0x1_0000
      && Begins(b[10..], receivers) && HoldsAt(b, 10 + 8 * |receivers|, msg)
    case AppMessage(appid, receiver, msgid, _, deviceId, sentAt, msg) =>
      Begins(b, [appid, receiver, msgid, deviceId, sentAt]) && HoldsAt(b, 40, msg)
    case Subscribe(appid, uid, online) => |b| == 17 && Begins(b, [appid, uid]) && Get8(b[16..17]) == online
    case AppUser(appid, uid) => |b| == 16 && Begins(b, [appid, uid])
    case AppRoom(appid, roomId) => |b| == 16 && Begins(b, [appid, roomId])
  }

  lemma BodyBytes(body: Body, version: int)
    ensures LaidOut(Encode(body, version), body, version)
  {
    hide Encode, LaidOut;
    match body
    case IM(_, _, _, _, _) => ClientBytes(body, version);
    case Customer(_, _, _, _, _, _) => ClientBytes(body, version);
    case PendingGroup(_, _, _, _, _, _, _) => PendingBytes(body, version);
    case EMessage(_, _, _) => CarrierBytes(body, version);
    case MessageBatch(_, _, _) => CarrierBytes(body, version);
    case BatchPush(_, _, _) => PushBytes(body, version);
    case AppMessage(_, _, _, _, _, _, _) => CarrierBytes(body, version);
    case _ => IdBytes(body, version);
  }

  lemma BeginsWith(xs: seq<Int64>, rest: seq<Byte>)
    ensures Begins(Put64s(xs) + rest, xs) && Begins(Put64s(xs), xs)
  {
    hide Put64s, Slot;
    SlotsOfPut64s(xs, rest);
    SlotsOfPut64s(xs, []);
    assert Put64s(xs) + [] == Put64s(xs);
  }

  lemma HoldsFrame(front: seq<Byte>, m: Message)
    ensures HoldsAt(front + Put16(|Frame(m)|) + Frame(m), |front|, m)
  {
    hide Frame, Put16, GetU16;
    var b, at := front + Put16(|Frame(m)|) + Frame(m), |front|;
    GetPutU16(|Frame(m)|);
    assert b[at..at + 2] == Put16(|Frame(m)|);
  }

  lemma IdBytes(body: Body, version: int)
    requires body.NoBody? || body.Ignore? || body.Raw? || body.Text? || body.Offline3? || body.Offline4? ||
      body.SyncCursor? || body.Subscribe? || body.AppUser? || body.AppRoom?
    ensures LaidOut(Encode(body, version), body, version)
  {
    hide Put64s, Begins, Put8, Get8;
    match body
    case Offline3(o) =>
      BeginsWith([o.appid, o.receiver, o.msgid, o.deviceId, o.prevMsgid, o.prevPeerMsgid, o.prevBatchMsgid], []);
    case Offline4(o) =>
      BeginsWith(
        [o.appid, o.receiver, o.msgid, o.deviceId, o.seqId, o.prevMsgid, o.prevPeerMsgid, o.prevBatchMsgid], []);
    case SyncCursor(cursor) => BeginsWith([cursor], []);
    case Subscribe(appid, uid, online) =>
      BeginsWith([appid, uid], Put8(online));
      GetPut8(online);
      assert Encode(body, version)[16..17] == Put8(online);
    case AppUser(appid, uid) => BeginsWith([appid, uid], []);
    case AppRoom(appid, roomId) => BeginsWith([appid, roomId], []);
    case _ =>
  }

  lemma ClientBytes(body: Body, version: int)
    requires body.IM? || body.Customer?
    ensures LaidOut(Encode(body, version), body, version)
  {
    hide Put64s, Begins, Put32, Get32;
    var b, head := Encode(body, version), if body.IM? then 16 else 32;
    GetPut32(body.timestamp);
    if body.IM? {
      var ids := [body.sender, body.receiver];
      var tail := (if version == 0 then [] else Put32(body.timestamp)) + Put32(body.localId) + body.content;
      GetPut32(body.localId);
      BeginsWith(ids, tail);
      assert b == Put64s(ids) + tail;
      if version == 0 {
        assert b[16..20] == Put32(body.localId);
      } else {
        assert b[16..20] == Put32(body.timestamp) && b[20..24] == Put32(body.localId);
      }
    } else {
      var ids, tail := [body.customerAppid, body.customerId, body.storeId, body.sellerId],
        Put32(body.timestamp) + body.content;
      BeginsWith(ids, tail);
      assert b == Put64s(ids) + tail && b[32..36] == Put32(body.timestamp);
    }
  }

  lemma PendingBytes(body: Body, version: int)
    requires body.PendingGroup?
    ensures LaidOut(Encode(body, version), body, version)
  {
    hide Put64s, Begins, Put32, Get32, Put16, GetU16;
    var b := Encode(body, version);
    var ids, members := [body.appid, body.groupSender, body.deviceId, body.gid], Put64s(body.members);
    GetPut32(body.timestamp);
    GetPutU16(|body.members|);
    BeginsWith(ids, Put32(body.timestamp) + Put16(|body.members|) + members + body.content);
    BeginsWith(body.members, body.content);
    assert b == Put64s(ids) + (Put32(body.timestamp) + Put16(|body.members|) + members + body.content);
    assert b[32..36] == Put32(body.timestamp) && b[36..38] == Put16(|body.members|);
    assert b[38..] == members + body.content;
  }

  lemma CarrierBytes(body: Body, version: int)
    requires body.EMessage? || body.MessageBatch? || body.AppMessage?
    ensures LaidOut(Encode(body, version), body, version)
  {
    hide Put64s, Begins, Put32, Get32, Put16, HoldsAt, Frame, Frames;
    var b := Encode(body, version);
    match body
    case EMessage(msgid, deviceId, msg) =>
      var ids := [msgid, deviceId];
      BeginsWith(ids, Put16(|Frame(msg)|) + Frame(msg));
      assert b == Put64s(ids) + (Put16(|Frame(msg)|) + Frame(msg));
      HoldsFrame(Put64s(ids), msg);
    case MessageBatch(firstId, lastId, msgs) =>
      var ids := [firstId, lastId];
      BeginsWith(ids, Put32(|msgs|) + Frames(msgs));
      assert b == Put64s(ids) + (Put32(|msgs|) + Frames(msgs));
      GetPut32(|msgs|);
      assert b[16..20] == Put32(|msgs|);
    case AppMessage(appid, receiver, msgid, _, deviceId, sentAt, msg) =>
      var ids := [appid, receiver, msgid, deviceId, sentAt];
      BeginsWith(ids, Put16(|Frame(msg)|) + Frame(msg));
      assert b == Put64s(ids) + (Put16(|Frame(msg)|) + Frame(msg));
      HoldsFrame(Put64s(ids), msg);
  }

  lemma PushBytes(body: Body, version: int)
    requires body.BatchPush?
    ensures LaidOut(Encode(body, version), body, version)
  {
    hide Put64s, Begins, Put16, GetU16, HoldsAt, Frame;
    var b := Encode(body, version);
    var count, nested := Put16(|body.receivers|), Put16(|Frame(body.msg)|) + Frame(body.msg);
    var front := Put64s([body.appid]) + count + Put64s(body.receivers);
    BeginsWith([body.appid], count + Put64s(body.receivers) + nested);
    BeginsWith(body.receivers, nested);
    GetPutU16(|body.receivers|);
    HoldsFrame(front, body.msg);
    assert b == Put64s([body.appid]) + (count + Put64s(body.receivers) + nested);
    assert b[8..10] == count && b[10..] == Put64s(body.receivers) + nested;
  }
}
