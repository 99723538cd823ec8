/** Decoding undoes encoding exactly for the messages that fit their fields. */
module Codec {
  import opened Bytes
  import opened Protocol

  lemma ReadHeader(m: Message, length: int, s: seq<Byte>)
    requires |s| >= 12 && s[..12] == Header(length, m)
    ensures Get32(s[0..4]) == ToInt32(length) && Get32(s[4..8]) == ToInt32(m.seqNo)
    ensures s[8] == m.cmd % 256 && s[9] == m.version % 256 && s[10] == m.flag % 256
  {
    var h := s[..12];
    assert s[0..4] == h[0..4] == Put32(length);
    assert s[4..8] == h[4..8] == Put32(m.seqNo);
    assert s[8] == h[8] && s[9] == h[9] && s[10] == h[10];
    GetPut32(length);
    GetPut32(m.seqNo);
  }

  /** A frame whose body reaches the limit is refused. */
  lemma LongFrame(m: Message, rest: seq<Byte>, limit: int)
    requires limit <= |Encode(m.body, m.version)| < 0x8000_0000
    ensures Receive(Frame(m) + rest, limit, false) == None
  {
    hide Encode, PutUint, GetUint, Put32, Get32, Decode;
    var s, body := Frame(m) + rest, Encode(m.body, m.version);
    assert s[..12] == Header(|body|, m);
    ReadHeader(m, |body|, s);
  }

  /** A frame is received back, whatever follows it in the stream. */
  lemma {:induction false} RoundTrip(m: Message, rest: seq<Byte>, limit: int)
    requires Fits(m) && |Encode(m.body, m.version)| < limit <= 0x8000_0000
    ensures Receive(Frame(m) + rest, limit, false) == Some(Received(m, |Frame(m)|))
    decreases m, 1
  {
    hide Decode, Encode, BodyFits, PutUint, GetUint, Put32, Get32;
    var body := Encode(m.body, m.version);
    var s := Frame(m) + rest;
    assert s[..12] == Header(|body|, m);
    ReadHeader(m, |body|, s);
    assert s[12..12 + |body|] == body;
    BodyRoundTrip(m);
  }

  /** A body is decoded back under its own command and version. */
  lemma {:induction false} BodyRoundTrip(m: Message)
    requires Fits(m) && |Encode(m.body, m.version)| < 0x8000_0000
    ensures Decode(m.cmd, m.version, Encode(m.body, m.version)) == Some(m.body)
    decreases m, 0
  {
    hide Receive, Nested, ReceiveAll, Encode, Decode, Frame;
    match m.body
    case IM(_, _, _, _, _) => IMRoundTrip(m);
    case Customer(_, _, _, _, _, _) => CustomerRoundTrip(m);
    case Offline3(_) => OfflineRoundTrip(m);
    case Offline4(_) => OfflineRoundTrip(m);
    case PendingGroup(_, _, _, _, _, _, _) => PendingBodyRoundTrip(m);
    case SyncCursor(_) => IdsRoundTrip(m);
    case Subscribe(_, _, _) => IdsRoundTrip(m);
    case AppUser(_, _) => IdsRoundTrip(m);
    case AppRoom(_, _) => IdsRoundTrip(m);
    case EMessage(_, _, _) => EMessageRoundTrip(m);
    case MessageBatch(_, _, _) => BatchRoundTrip(m);
    case BatchPush(_, _, _) => PushRoundTrip(m);
    case AppMessage(_, _, _, _, _, _, _) => AppRoundTrip(m);
    case _ => PlainRoundTrip(m);
  }

  lemma PlainRoundTrip(m: Message)
    requires LayoutOfBody(m.body) == LayoutOf(m.cmd)
    requires m.body.NoBody? || m.body.Ignore? || m.body.Raw? || m.body.Text?
    ensures Decode(m.cmd, m.version, Encode(m.body, m.version)) == Some(m.body)
  {
  }

  lemma PendingBodyRoundTrip(m: Message)
    requires LayoutOfBody(m.body) == LayoutOf(m.cmd) && m.body.PendingGroup?
    ensures Decode(m.cmd, m.version, Encode(m.body, m.version)) == Some(m.body) <==> |m.body.members| <= 4091
  {
    hide Encode, DecodePending;
    PendingRoundTrip(m.body, m.version);
  }

  lemma IdsRoundTrip(m: Message)
    requires LayoutOfBody(m.body) == LayoutOf(m.cmd)
    requires m.body.SyncCursor? || m.body.Subscribe? || m.body.AppUser? || m.body.AppRoom?
    ensures Decode(m.cmd, m.version, Encode(m.body, m.version)) == Some(m.body)
  {
    hide PutUint, GetUint, Put64, Get64, Put32, Get32, Put16, Get16, Put8, Get8, GetU16, Slot, Receive, Put64s;
    hide Nested, ReceiveAll, DecodePending;
    var b := Encode(m.body, m.version);
    match m.body
    case SyncCursor(cursor) =>
      SlotsOfPut64s([cursor], []);
      assert b == Put64s([cursor]) + [];
    case Subscribe(appid, uid, online) =>
      GetPut8(online);
      SlotsOfPut64s([appid, uid], Put8(online));
      assert b[16..17] == Put8(online);
    case AppUser(appid, uid) =>
      SlotsOfPut64s([appid, uid], []);
      assert b == Put64s([appid, uid]) + [];
    case AppRoom(appid, roomId) =>
      SlotsOfPut64s([appid, roomId], []);
      assert b == Put64s([appid, roomId]) + [];
  }

  lemma CustomerRoundTrip(m: Message)
    requires LayoutOfBody(m.body) == LayoutOf(m.cmd) && m.body.Customer?
    ensures Decode(m.cmd, m.version, Encode(m.body, m.version)) == Some(m.body)
  {
    hide PutUint, GetUint, Put64, Get64, Put32, Get32, Put16, Get16, Put8, Get8, GetU16, Slot, Receive, Put64s;
    var Customer(a, c, st, se, timestamp, content) := m.body;
    var b := Encode(m.body, m.version);
    GetPut32(timestamp);
    SlotsOfPut64s([a, c, st, se], Put32(timestamp) + content);
    assert b == Put64s([a, c, st, se]) + (Put32(timestamp) + content);
    assert b[32..36] == Put32(timestamp) && b[36..] == content;
  }

  /** The version 3 record does not carry the sequence number. */
  lemma OfflineRoundTrip(m: Message)
    requires LayoutOfBody(m.body) == LayoutOf(m.cmd) && (m.body.Offline3? || m.body.Offline4?)
    ensures Decode(m.cmd, m.version, Encode(m.body, m.version)) == Some(m.body)
      <==> (m.body.Offline3? ==> m.body.off.seqId == 0)
  {
    hide PutUint, GetUint, Put64, Get64, Put32, Get32, Put16, Get16, Put8, Get8, GetU16, Slot, Receive, Put64s;
    var o := m.body.off;
    var b := Encode(m.body, m.version);
    if m.body.Offline3? {
      var xs := [o.appid, o.receiver, o.msgid, o.deviceId, o.prevMsgid, o.prevPeerMsgid, o.prevBatchMsgid];
      SlotsOfPut64s(xs, []);
      assert b == Put64s(xs) + [];
    } else {
      var xs := [o.appid, o.receiver, o.msgid, o.deviceId, o.seqId, o.prevMsgid, o.prevPeerMsgid, o.prevBatchMsgid];
      SlotsOfPut64s(xs, []);
      assert b == Put64s(xs) + [];
    }
  }

  lemma IMRoundTrip(m: Message)
    requires LayoutOfBody(m.body) == LayoutOf(m.cmd) && m.body.IM?
    ensures Decode(m.cmd, m.version, Encode(m.body, m.version)) == Some(m.body)
      <==> (m.version == 0 ==> m.body.timestamp == 0)
  {
    hide PutUint, GetUint, Put64, Get64, Put32, Get32, Put16, Get16, Put8, Get8, GetU16, Slot, Receive, Put64s;
    var b := Encode(m.body, m.version);
    var IM(sender, receiver, timestamp, localId, content) := m.body;
    var pair := [sender, receiver];
    GetPut32(timestamp);
    GetPut32(localId);
    if m.version == 0 {
      SlotsOfPut64s(pair, Put32(localId) + content);
      assert b == Put64s(pair) + (Put32(localId) + content);
      assert b[16..20] == Put32(localId) && b[20..] == content;
    } else {
      SlotsOfPut64s(pair, Put32(timestamp) + Put32(localId) + content);
      assert b == Put64s(pair) + (Put32(timestamp) + Put32(localId) + content);
      assert b[16..20] == Put32(timestamp) && b[20..24] == Put32(localId) && b[24..] == content;
    }
  }

  lemma {:induction false} EMessageRoundTrip(m: Message)
    requires Fits(m) && m.body.EMessage?
    ensures Decode(m.cmd, m.version, Encode(m.body, m.version)) == Some(m.body)
    decreases m.body.msg, 3
  {
    hide PutUint, GetUint, Put64, Get64, Put32, Get32, Put16, Get16, Put8, Get8, GetU16, Slot, Receive, Put64s;
    hide Frame;
    var b := Encode(m.body, m.version);
    var EMessage(msgid, deviceId, msg) := m.body;
    NestedRoundTrip(Put64s([msgid, deviceId]), msg);
    SlotsOfPut64s([msgid, deviceId], Put16(|Frame(msg)|) + Frame(msg));
    assert b == Put64s([msgid, deviceId]) + (Put16(|Frame(msg)|) + Frame(msg));
  }

  lemma {:induction false} AppRoundTrip(m: Message)
    requires Fits(m) && m.body.AppMessage?
    ensures Decode(m.cmd, m.version, Encode(m.body, m.version)) == Some(m.body)
    decreases m.body.msg, 3
  {
    hide PutUint, GetUint, Put64, Get64, Put32, Get32, Put16, Get16, Put8, Get8, GetU16, Slot, Receive, Put64s;
    hide Frame;
    var b := Encode(m.body, m.version);
    var AppMessage(appid, receiver, msgid, _, deviceId, sentAt, msg) := m.body;
    var xs := [appid, receiver, msgid, deviceId, sentAt];
    NestedRoundTrip(Put64s(xs), msg);
    SlotsOfPut64s(xs, Put16(|Frame(msg)|) + Frame(msg));
    assert b == Put64s(xs) + (Put16(|Frame(msg)|) + Frame(msg));
  }

  lemma {:induction false} PushRoundTrip(m: Message)
    requires Fits(m) && m.body.BatchPush?
    ensures Decode(m.cmd, m.version, Encode(m.body, m.version)) == Some(m.body)
    decreases m.body.msg, 3
  {
    hide Frame, Nested, Slots, Decode, Encode, Put64s, Put16;
    var b := Encode(m.body, m.version);
    PushPrefix(m.body, m.version);
    NestedRoundTrip(b[..10 + 8 * |m.body.receivers|], m.body.msg);
    PushDecode(m.cmd, m.version, b);
  }

  lemma PushPrefix(body: Body, version: int)
    requires body.BatchPush? && |body.receivers| <= 0xffff
    ensures var b := Encode(body, version); var n := |body.receivers|;
      && |b| >= 12 + 8 * n && GetU16(b[8..10]) == n && Slot(b, 0) == body.appid
      && Slots(b[10..], n) == body.receivers
      && b == b[..10 + 8 * n] + Put16(|Frame(body.msg)|) + Frame(body.msg)
  {
    hide PutUint, GetUint, Put64, Get64, Put32, Get32, Put16, Get16, Put8, Get8, GetU16, Slot, Receive, Put64s;
    hide Frame;
    var b := Encode(body, version);
    var receivers, tail := body.receivers, Put16(|Frame(body.msg)|) + Frame(body.msg);
    assert b == Put64s([body.appid]) + (Put16(|receivers|) + Put64s(receivers) + tail);
    SlotsOfPut64s([body.appid], Put16(|receivers|) + Put64s(receivers) + tail);
    SlotsOfPut64s(receivers, tail);
    GetPutU16(|receivers|);
    assert b[8..10] == Put16(|receivers|) && b[10..] == Put64s(receivers) + tail;
    assert Slots(b[10..], |receivers|) == receivers;
  }

  lemma PushDecode(cmd: int, version: int, b: seq<Byte>)
    requires LayoutOf(cmd) == PushLayout && |b| >= 12
    ensures var n := GetU16(b[8..10]);
      Decode(cmd, version, b) ==
        if |b| < 12 + 8 * n then None else
        match Nested(b, 10 + 8 * n)
        case None => None
        case Some(inner) => Some(BatchPush(Slot(b, 0), Slots(b[10..], n), inner))
  {
    hide Nested, Slots, Slot, GetU16;
  }

  lemma {:induction false} BatchRoundTrip(m: Message)
    requires Fits(m) && m.body.MessageBatch? && |Encode(m.body, m.version)| < 0x8000_0000
    ensures Decode(m.cmd, m.version, Encode(m.body, m.version)) == Some(m.body)
    decreases m.body.msgs, 1
  {
    hide PutUint, GetUint, Put64, Get64, Put32, Get32, Put16, Get16, Put8, Get8, GetU16, Slot, Receive, Put64s;
    hide Frame, Frames, ReceiveAll;
    var b := Encode(m.body, m.version);
    var MessageBatch(firstId, lastId, msgs) := m.body;
    GetPut32(|msgs|);
    FramesLength(msgs);
    SlotsOfPut64s([firstId, lastId], Put32(|msgs|) + Frames(msgs));
    assert b == Put64s([firstId, lastId]) + (Put32(|msgs|) + Frames(msgs));
    assert b[16..20] == Put32(|msgs|) && b[20..] == Frames(msgs);
    FramesRoundTrip(msgs);
  }

  lemma {:induction false} NestedRoundTrip(prefix: seq<Byte>, m: Message)
    requires |prefix| > 0 && Fits(m) && |Frame(m)| <= 0x7fff
    ensures Nested(prefix + Put16(|Frame(m)|) + Frame(m), |prefix|) == Some(m)
    decreases m, 2
  {
    hide Decode, Encode, Fits, Receive;
    var b := prefix + Put16(|Frame(m)|) + Frame(m);
    var at := |prefix|;
    assert b[at..at + 2] == Put16(|Frame(m)|);
    GetPut16(|Frame(m)|);
    assert b[at + 2..at + 2 + |Frame(m)|] == Frame(m) + [];
    RoundTrip(m, [], MESSAGE_LIMIT);
  }

  lemma {:induction false} FramesLength(msgs: seq<Message>)
    ensures |Frames(msgs)| >= 12 * |msgs|
  {
    if msgs != [] { FramesLength(msgs[1..]); }
  }

  lemma {:induction false} FramesRoundTrip(msgs: seq<Message>)
    requires forall m :: m in msgs ==> Fits(m) && |Encode(m.body, m.version)| < MESSAGE_LIMIT
    ensures ReceiveAll(Frames(msgs), |msgs|) == Some(msgs)
    decreases msgs, 0
  {
    hide Decode, Encode, Fits, Receive, Frame;
    if msgs != [] {
      RoundTrip(msgs[0], Frames(msgs[1..]), MESSAGE_LIMIT);
      FramesRoundTrip(msgs[1..]);
      assert Frames(msgs)[|Frame(msgs[0])|..] == Frames(msgs[1..]);
      assert [msgs[0]] + msgs[1..] == msgs;
    }
  }

  /** The member counts whose list cannot be read: the count, or the end of the list, is negative as an int16. */
  predicate CountRefused(n: nat) { ToInt16(n) < 0 || ToInt16(38 + 8 * ToInt16(n)) < 0 }

  lemma PendingTail(body: Body, version: int)
    requires body.PendingGroup?
    ensures var b, end := Encode(body, version), 38 + 8 * |body.members|;
      |b| == end + |body.content| && b[end..] == body.content
  {
    hide Put64s, Put32, Put16;
  }

  lemma CountWraps(n: nat)
    requires !CountRefused(n)
    ensures 0 <= ToInt16(n) <= n && 0 <= ToInt16(38 + 8 * ToInt16(n)) <= 38 + 8 * n
    ensures n <= 4091 ==> ToInt16(n) == n && ToInt16(38 + 8 * ToInt16(n)) == 38 + 8 * n
    ensures n > 4091 ==> ToInt16(38 + 8 * ToInt16(n)) < 38 + 8 * n
  {
  }

  /** What is read of a pending group message whose count is not refused: as many members as the count says, and
      as content everything from the wrapped end of the list on. */
  function PendingRead(body: Body, version: int): (r: Body)
    requires body.PendingGroup? && !CountRefused(|body.members|)
    ensures r.PendingGroup? && (r == body <==> |body.members| <= 4091)
  {
    hide Encode, CountRefused, ToInt16;
    CountWraps(|body.members|);
    PendingTail(body, version);
    var count, end := ToInt16(|body.members|), ToInt16(38 + 8 * ToInt16(|body.members|));
    var b := Encode(body, version);
    assert |body.members| <= 4091 ==> body.members[..count] == body.members;
    PendingGroup(body.appid, body.groupSender, body.deviceId, body.gid, body.timestamp, body.members[..count], b[end..])
  }

  /** A pending group message is refused exactly for those counts; otherwise this is what comes back. */
  lemma PendingDecoded(body: Body, version: int)
    requires body.PendingGroup?
    ensures DecodePending(Encode(body, version)) ==
      if CountRefused(|body.members|) then None else Some(PendingRead(body, version))
  {
    hide PutUint, GetUint, Put64, Get64, Put32, Get32, Put16, Get16, Slot, Put64s;
    var PendingGroup(appid, sender, deviceId, gid, timestamp, members, content) := body;
    var b := Encode(body, version);
    var tail := Put64s(members) + content;
    GetPut32(timestamp);
    GetPut16(|members|);
    SlotsOfPut64s([appid, sender, deviceId, gid], Put32(timestamp) + Put16(|members|) + tail);
    assert b == Put64s([appid, sender, deviceId, gid]) + (Put32(timestamp) + Put16(|members|) + tail);
    assert b[32..36] == Put32(timestamp) && b[36..38] == Put16(|members|) && b[38..] == tail;
    var count: int := ToInt16(|members|);
    if !CountRefused(|members|) {
      SlotsOfPut64s(members, content);
      assert Slots(tail, count) == members[..count];
    }
  }

  /** A pending group message survives exactly up to 4091 members: from 4092 on, the end of the
      member list no longer fits the int16 it is computed in. */
  lemma PendingRoundTrip(body: Body, version: int)
    requires body.PendingGroup?
    ensures DecodePending(Encode(body, version)) == Some(body) <==> |body.members| <= 4091
  {
    hide PutUint, GetUint, Put64, Get64, Put32, Get32, Put16, Get16, Slot, Put64s, Encode;
    PendingDecoded(body, version);
  }

  // ---------- only such messages come back ----------

  /** Of the messages whose body Go can hold in memory, exactly those that fit come back. */
  lemma RoundTripIff(m: Message, rest: seq<Byte>, limit: int)
    requires |Encode(m.body, m.version)| < 0x8000_0000 && limit <= 0x8000_0000
    ensures Receive(Frame(m) + rest, limit, false) == Some(Received(m, |Frame(m)|))
      <==> Fits(m) && |Encode(m.body, m.version)| < limit
  {
    hide Receive, Fits, Encode, Frame;
    var s := Frame(m) + rest;
    if Receive(s, limit, false) == Some(Received(m, |Frame(m)|)) {
      Exact(m, s, |Frame(m)|, limit);
    }
    if Fits(m) && |Encode(m.body, m.version)| < limit {
      RoundTrip(m, rest, limit);
    }
  }

  /** If a stream that agrees with a message's frame as far as both go yields that message,
      then the frame was complete and the message fits. */
  lemma {:induction false} Exact(m: Message, s: seq<Byte>, size: nat, limit: int)
    requires |Encode(m.body, m.version)| < 0x8000_0000
    requires s <= Frame(m) || Frame(m) <= s
    requires Receive(s, limit, false) == Some(Received(m, size))
    ensures Fits(m) && |Encode(m.body, m.version)| < limit && size == |Frame(m)| <= |s|
    decreases m, 1
  {
    hide Decode, Encode, BodyFits, PutUint, GetUint, Put32, Get32;
    var body := Encode(m.body, m.version);
    assert s[..12] == Header(|body|, m);
    ReadHeader(m, |body|, s);
    assert s[12..12 + |body|] == body;
    BodyExact(m);
  }

  lemma DecodeLayout(cmd: int, version: int, b: seq<Byte>)
    ensures Decode(cmd, version, b).Some? ==> LayoutOfBody(Decode(cmd, version, b).value) == LayoutOf(cmd)
  {
    hide Nested, Slot, Slots, ReceiveAll, Get32, Get8, GetU16, LayoutOf;
  }

  lemma {:induction false} BodyExact(m: Message)
    requires |Encode(m.body, m.version)| < 0x8000_0000
    requires Decode(m.cmd, m.version, Encode(m.body, m.version)) == Some(m.body)
    ensures LayoutOfBody(m.body) == LayoutOf(m.cmd) && BodyFits(m.body, m.version)
    decreases m, 0
  {
    hide Receive, Nested, ReceiveAll, Encode, Decode, Frame;
    DecodeLayout(m.cmd, m.version, Encode(m.body, m.version));
    match m.body
    case IM(_, _, _, _, _) => IMRoundTrip(m);
    case Offline3(_) => OfflineRoundTrip(m);
    case PendingGroup(_, _, _, _, _, _, _) => PendingBodyRoundTrip(m);
    case EMessage(_, _, _) => EMessageExact(m);
    case MessageBatch(_, _, _) => BatchExact(m);
    case BatchPush(_, _, _) => PushExact(m);
    case AppMessage(_, _, _, _, _, _, _) => AppExact(m);
    case _ =>
  }

  lemma {:induction false} NestedExact(prefix: seq<Byte>, m: Message)
    requires |prefix| > 0 && |Encode(m.body, m.version)| < 0x8000_0000
    requires Nested(prefix + Put16(|Frame(m)|) + Frame(m), |prefix|) == Some(m)
    ensures Fits(m) && |Frame(m)| <= 0x7fff
    decreases m, 2
  {
    hide Decode, Encode, Fits, Receive;
    var b := prefix + Put16(|Frame(m)|) + Frame(m);
    var at := |prefix|;
    assert b[at..at + 2] == Put16(|Frame(m)|);
    GetPut16(|Frame(m)|);
    var l := ToInt16(|Frame(m)|);
    assert b[at + 2..at + 2 + l] == Frame(m)[..l];
    Exact(m, Frame(m)[..l], Receive(Frame(m)[..l], MESSAGE_LIMIT, false).value.size, MESSAGE_LIMIT);
  }

  lemma {:induction false} EMessageExact(m: Message)
    requires LayoutOf(m.cmd) == EMessageLayout && m.body.EMessage? && |Encode(m.body, m.version)| < 0x8000_0000
    requires Decode(m.cmd, m.version, Encode(m.body, m.version)) == Some(m.body)
    ensures BodyFits(m.body, m.version)
    decreases m.body.msg, 3
  {
    hide PutUint, GetUint, Put64, Get64, Put32, Get32, Put16, Get16, Put8, Get8, GetU16, Slot, Receive, Put64s;
    hide Fits, Nested;
    NestedExact(Put64s([m.body.msgid, m.body.deviceId]), m.body.msg);
  }

  lemma {:induction false} AppExact(m: Message)
    requires LayoutOf(m.cmd) == AppLayout && m.body.AppMessage? && |Encode(m.body, m.version)| < 0x8000_0000
    requires Decode(m.cmd, m.version, Encode(m.body, m.version)) == Some(m.body)
    ensures BodyFits(m.body, m.version)
    decreases m.body.msg, 3
  {
    hide PutUint, GetUint, Put64, Get64, Put32, Get32, Put16, Get16, Put8, Get8, GetU16, Slot, Receive, Put64s;
    hide Fits, Nested;
    var AppMessage(appid, receiver, msgid, _, deviceId, sentAt, msg) := m.body;
    NestedExact(Put64s([appid, receiver, msgid, deviceId, sentAt]), msg);
  }

  lemma {:induction false} PushExact(m: Message)
    requires LayoutOf(m.cmd) == PushLayout && m.body.BatchPush? && |Encode(m.body, m.version)| < 0x8000_0000
    requires Decode(m.cmd, m.version, Encode(m.body, m.version)) == Some(m.body)
    ensures BodyFits(m.body, m.version)
    decreases m.body.msg, 3
  {
    hide Fits, Frame, Nested, Decode, Encode, Put64s, Put16, Slot, GetU16;
    var b := Encode(m.body, m.version);
    PushCount(m.body, m.version);
    PushDecode(m.cmd, m.version, b);
    PushPrefix(m.body, m.version);
    PushInner(m.body, m.version);
    NestedExact(b[..10 + 8 * |m.body.receivers|], m.body.msg);
  }

  lemma PushCount(body: Body, version: int)
    requires body.BatchPush?
    ensures |Encode(body, version)| >= 12 && GetU16(Encode(body, version)[8..10]) == |body.receivers| % 0x1_0000
  {
    hide PutUint, GetUint, Put64, Get64, Put32, Get32, Put16, Get16, Put8, Get8, GetU16, Slot, Receive, Put64s;
    hide Frame;
    var b := Encode(body, version);
    GetPutU16(|body.receivers|);
    assert b[8..10] == Put16(|body.receivers|);
  }

  lemma PushInner(body: Body, version: int)
    requires body.BatchPush?
    ensures |Encode(body.msg.body, body.msg.version)| < |Encode(body, version)|
  {
    hide PutUint, GetUint, Put64, Get64, Put32, Get32, Put16, Get16, Put8, Get8, GetU16, Slot, Receive, Put64s;
  }

  lemma {:induction false} BatchExact(m: Message)
    requires LayoutOf(m.cmd) == BatchLayout && m.body.MessageBatch? && |Encode(m.body, m.version)| < 0x8000_0000
    requires Decode(m.cmd, m.version, Encode(m.body, m.version)) == Some(m.body)
    ensures BodyFits(m.body, m.version)
    decreases m.body.msgs, 1
  {
    hide PutUint, GetUint, Put64, Get64, Put32, Get32, Put16, Get16, Put8, Get8, GetU16, Slot, Receive, Put64s;
    hide Frame, Fits, ReceiveAll;
    var b := Encode(m.body, m.version);
    var msgs := m.body.msgs;
    GetPut32(|msgs|);
    FramesLength(msgs);
    assert b[16..20] == Put32(|msgs|) && b[20..] == Frames(msgs);
    FramesExact(msgs);
  }

  lemma {:induction false} FramesExact(msgs: seq<Message>)
    requires |Frames(msgs)| < 0x8000_0000 && ReceiveAll(Frames(msgs), |msgs|) == Some(msgs)
    ensures forall m :: m in msgs ==> Fits(m) && |Encode(m.body, m.version)| < MESSAGE_LIMIT
    decreases msgs, 0
  {
    hide Decode, Encode, Fits, Receive;
    if msgs != [] {
      var s, f := Frames(msgs), Frame(msgs[0]);
      var got := Receive(s, MESSAGE_LIMIT, false).value;
      var rest := ReceiveAll(s[got.size..], |msgs| - 1).value;
      assert msgs[1..] == ([got.msg] + rest)[1..] == rest && msgs[0] == got.msg;
      Exact(msgs[0], s, got.size, MESSAGE_LIMIT);
      assert s[|f|..] == Frames(msgs[1..]);
      FramesExact(msgs[1..]);
    }
  }
}
