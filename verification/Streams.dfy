/** The encoders and decoders of core/ as they run: writing to and reading from buffers. */
module Streams {
  import opened Bytes
  import opened Protocol
  import opened WireFormat

  /** A `bytes.Buffer`: the bytes not yet read. */
  class Buffer {
    var data: seq<Byte>

    constructor (bytes: seq<Byte>)
      ensures data == bytes
    {
      data := bytes;
    }

    method Write(bytes: seq<Byte>)
      modifies this
      ensures data == old(data) + bytes
    {
      data := data + bytes;
    }

    /** `io.ReadFull`: takes exactly n bytes; a shorter buffer is used up. */
    method ReadFull(n: nat) returns (r: Option<seq<Byte>>)
      modifies this
      ensures r == if n <= |old(data)| then Some(old(data)[..n]) else None
      ensures data == if n <= |old(data)| then old(data)[n..] else []
    {
      if n <= |data| {
        r := Some(data[..n]);
        data := data[n..];
      } else {
        r := None;
        data := [];
      }
    }

    /** `binary.Read` of an int64; the variable read into stays 0 when the buffer is too short. */
    method Read64() returns (x: Int64)
      modifies this
      ensures x == Slot(old(data), 0)
      ensures data == if 8 <= |old(data)| then old(data)[8..] else []
    {
      var bytes := ReadFull(8);
      x := if bytes.Some? then Get64(bytes.value) else 0;
    }
  }

  // ---------- writing ----------

  /** `WriteMessage`: appends the message's frame to the buffer. */
  method WriteMessage(w: Buffer, m: Message)
    modifies w
    ensures w.data == old(w.data) + Frame(m)
    decreases m, 2
  {
    hide Encode, Header;
    var body := ToData(m.body, m.version);
    w.Write(Header(|body|, m));
    w.Write(body);
  }

  /** `Message.ToData`. */
  method ToData(body: Body, version: int) returns (buf: seq<Byte>)
    ensures buf == Encode(body, version)
    decreases body, 1
  {
    hide Put64s, Put32, Put16, Frame, Frames;
    match body
    case PendingGroup(appid, sender, deviceId, gid, timestamp, members, content) =>
      var buffer := new Buffer(Put64s([appid, sender, deviceId, gid]) + Put32(timestamp) + Put16(|members|));
      WriteIds(buffer, members);
      buffer.Write(content);
      buf := buffer.data;
    case MessageBatch(firstId, lastId, msgs) =>
      var buffer := new Buffer(Put64s([firstId, lastId]) + Put32(|msgs|));
      ghost var head := buffer.data;
      NoFrames();
      for k := 0 to |msgs|
        invariant buffer.data == head + Frames(msgs[..k])
      {
        WriteMessage(buffer, msgs[k]);
        FramesAppend(msgs, k);
      }
      assert msgs[..|msgs|] == msgs;
      buf := buffer.data;
    case BatchPush(appid, receivers, msg) =>
      var buffer := new Buffer(Put64s([appid]) + Put16(|receivers|));
      WriteIds(buffer, receivers);
      WriteNested(buffer, msg);
      buf := buffer.data;
    case EMessage(msgid, deviceId, msg) =>
      var buffer := new Buffer(Put64s([msgid, deviceId]));
      WriteNested(buffer, msg);
      buf := buffer.data;
    case AppMessage(appid, receiver, msgid, _, deviceId, sentAt, msg) =>
      var buffer := new Buffer(Put64s([appid, receiver, msgid, deviceId, sentAt]));
      WriteNested(buffer, msg);
      buf := buffer.data;
    case _ => buf := Encode(body, version);
  }

  method WriteIds(buffer: Buffer, ids: seq<Int64>)
    modifies buffer
    ensures buffer.data == old(buffer.data) + Put64s(ids)
  {
    hide Put64, Put64s;
    NoIds();
    for k := 0 to |ids|
      invariant buffer.data == old(buffer.data) + Put64s(ids[..k])
    {
      buffer.Write(Put64(ids[k]));
      assert ids[..k + 1] == ids[..k] + [ids[k]];
      Put64sAppend(ids[..k], [ids[k]]);
      OneId(ids[k]);
    }
    assert ids[..|ids|] == ids;
  }

  /** A message inside a body, behind its int16 length. */
  method WriteNested(buffer: Buffer, m: Message)
    modifies buffer
    ensures buffer.data == old(buffer.data) + Put16(|Frame(m)|) + Frame(m)
    decreases m, 3
  {
    hide Frame, Put16;
    var mbuffer := new Buffer([]);
    WriteMessage(mbuffer, m);
    assert mbuffer.data == Frame(m);
    buffer.Write(Put16(|mbuffer.data|));
    buffer.Write(mbuffer.data);
  }

  lemma NoIds() ensures Put64s([]) == [] {}
  lemma OneId(x: Int64) ensures Put64s([x]) == Put64(x) { assert [x][1..] == []; }
  lemma NoFrames() ensures Frames([]) == [] {}

  lemma {:induction false} FramesAppend(msgs: seq<Message>, k: nat)
    requires k < |msgs|
    ensures Frames(msgs[..k + 1]) == Frames(msgs[..k]) + Frame(msgs[k])
  {
    hide Frame;
    if k == 0 {
      assert msgs[..1][1..] == [] && msgs[..0] == [];
    } else {
      FramesAppend(msgs[1..], k - 1);
      assert msgs[1..][..k] == msgs[..k + 1][1..] && msgs[1..][..k - 1] == msgs[..k][1..];
    }
  }

  // ---------- reading ----------

  /** `ReceiveLimitMessage`: the next message of the stream, which moves past exactly its frame. */
  method ReceiveLimitMessage(conn: Buffer, limit: int, external: bool) returns (r: Option<Message>)
    modifies conn
    ensures var got := Receive(old(conn.data), limit, external);
      && r == (if got.Some? then Some(got.value.msg) else None)
      && (got.Some? ==> conn.data == old(conn.data)[got.value.size..])
    ensures external ==>
      (r.Some? <==> Receive(old(conn.data), limit, false).Some? && IsClientCommand(old(conn.data)[8]))
    ensures external && r.Some? ==>
      && r.value == Receive(old(conn.data), limit, false).value.msg
      && r.value.cmd in {4, 5, 8, 13, 14, 15, 17, 18, 19, 20, 22, 24, 25, 26, 30, 34, 35, 37}
    decreases |conn.data|, 1
  {
    hide Decode, Get32;
    var s := conn.data;
    ClientStream(s, limit);
    var header := conn.ReadFull(12);
    if header.None? {
      return None;
    }
    var h := header.value;
    assert h[0..4] == s[0..4] && h[4..8] == s[4..8];
    var length := Get32(h[0..4]);
    if length < 0 || length >= limit {
      return None;
    }
    var cmd := h[8];
    if external && cmd !in EXTERNAL_MESSAGES {
      return None;
    }
    var buff := conn.ReadFull(length);
    if buff.None? {
      return None;
    }
    assert buff.value == s[12..12 + length];
    var body := FromData(cmd, h[9], buff.value);
    if body.None? {
      return None;
    }
    return Some(Message(cmd, Get32(h[4..8]), h[9], h[10], body.value));
  }

  /** `Message.FromData`. */
  method FromData(cmd: int, version: int, b: seq<Byte>) returns (r: Option<Body>)
    ensures r == Decode(cmd, version, b)
    decreases |b|, 3
  {
    match LayoutOf(cmd)
    case PendingLayout =>
      DecodeIsPending(cmd, version, b);
      r := PendingFromData(b);
    case BatchLayout => r := BatchFromData(cmd, version, b);
    case PushLayout => r := PushFromData(cmd, version, b);
    case EMessageLayout =>
      if |b| < 18 {
        return None;
      }
      var msg := ReadNested(b, 16);
      r := if msg.None? then None else Some(EMessage(Slot(b, 0), Slot(b, 1), msg.value));
    case AppLayout =>
      if |b| < 42 {
        return None;
      }
      var msg := ReadNested(b, 40);
      r := if msg.None? then None
      else Some(AppMessage(Slot(b, 0), Slot(b, 1), Slot(b, 2), 0, Slot(b, 3), Slot(b, 4), msg.value));
    case _ => r := Decode(cmd, version, b);
  }

  lemma DecodeIsPending(cmd: int, version: int, b: seq<Byte>)
    requires LayoutOf(cmd) == PendingLayout
    ensures Decode(cmd, version, b) == DecodePending(b)
  {
    hide DecodePending;
  }

  method ReadIds(b: seq<Byte>, at: nat, count: nat) returns (ids: seq<Int64>)
    requires at <= |b|
    ensures ids == Slots(b[at..], count)
  {
    hide Get64;
    var buffer := new Buffer(b[at..]);
    ids := [];
    for k := 0 to count
      invariant ids == Slots(b[at..], k)
      invariant buffer.data == if at + 8 * k <= |b| then b[at + 8 * k..] else []
    {
      SlotShift(b, at, k, buffer.data);
      var id := buffer.Read64();
      ids := ids + [id];
    }
  }

  lemma SlotShift(b: seq<Byte>, at: nat, k: nat, rest: seq<Byte>)
    requires at <= |b| && rest == if at + 8 * k <= |b| then b[at + 8 * k..] else []
    ensures Slot(b[at..], k) == Slot(rest, 0)
  {
    hide Get64;
    if at + 8 * k + 8 <= |b| { assert b[at..][8 * k..8 * k + 8] == rest[0..8]; }
  }

  /** `PendingGroupMessage.FromData`. */
  method PendingFromData(b: seq<Byte>) returns (r: Option<Body>)
    ensures r == DecodePending(b)
  {
    hide Get64, Get32, Get16, Slots;
    if |b| < 38 {
      return None;
    }
    var count: int := Get16(b[36..38]);
    var end: int := ToInt16(38 + count * 8);
    if |b| < end || count < 0 {
      return None;
    }
    var members := ReadIds(b, 38, count);
    if end < 0 {
      return None;
    }
    return Some(PendingGroup(Slot(b, 0), Slot(b, 1), Slot(b, 2), Slot(b, 3), Get32(b[32..36]), members, b[end..]));
  }

  /** `MessageBatch.FromData`. */
  method BatchFromData(cmd: int, version: int, b: seq<Byte>) returns (r: Option<Body>)
    requires LayoutOf(cmd) == BatchLayout
    ensures r == Decode(cmd, version, b)
    decreases |b|, 2
  {
    hide Get64, Get32, Receive, Slot, LayoutOf, Behind;
    if |b| < 18 {
      return None;
    }
    if |b| < 20 {
      return Some(MessageBatch(Slot(b, 0), Slot(b, 1), []));
    }
    var count := Get32(b[16..20]);
    if count < 0 {
      return None;
    }
    var buffer := new Buffer(b[20..]);
    ghost var all := ReceiveAll(b[20..], count);
    var msgs := [];
    NoneBehind(all);
    for k := 0 to count
      invariant all == Behind(msgs, ReceiveAll(buffer.data, count - k))
      invariant |buffer.data| < |b|
    {
      ghost var s := buffer.data;
      var msg := ReceiveLimitMessage(buffer, MESSAGE_LIMIT, false);
      ReceiveAllStep(s, count - k);
      if msg.None? {
        NothingBehind(msgs);
        return None;
      }
      BehindOne(msgs, msg.value, ReceiveAll(buffer.data, count - k - 1));
      msgs := msgs + [msg.value];
    }
    assert all == Some(msgs) by { BehindEnd(msgs, buffer.data); }
    return Some(MessageBatch(Slot(b, 0), Slot(b, 1), msgs));
  }

  function Behind(msgs: seq<Message>, rest: Option<seq<Message>>): (r: Option<seq<Message>>) {
    if rest.None? then None else Some(msgs + rest.value)
  }

  lemma NoneBehind(rest: Option<seq<Message>>)
    ensures Behind([], rest) == rest
  {
    if rest.Some? { assert [] + rest.value == rest.value; }
  }

  lemma NothingBehind(msgs: seq<Message>) ensures Behind(msgs, None) == None {}

  lemma BehindOne(msgs: seq<Message>, m: Message, rest: Option<seq<Message>>)
    ensures Behind(msgs, Behind([m], rest)) == Behind(msgs + [m], rest)
  {
    if rest.Some? { assert msgs + ([m] + rest.value) == msgs + [m] + rest.value; }
  }

  lemma BehindEnd(msgs: seq<Message>, s: seq<Byte>)
    ensures Behind(msgs, ReceiveAll(s, 0)) == Some(msgs)
  {
    assert msgs + [] == msgs;
  }

  lemma ReceiveAllStep(s: seq<Byte>, count: nat)
    requires count > 0
    ensures var got := Receive(s, MESSAGE_LIMIT, false);
      ReceiveAll(s, count)
        == if got.None? then None else Behind([got.value.msg], ReceiveAll(s[got.value.size..], count - 1))
  {
    hide Receive;
  }

  /** `BatchPushMessage.FromData`. */
  method PushFromData(cmd: int, version: int, b: seq<Byte>) returns (r: Option<Body>)
    requires LayoutOf(cmd) == PushLayout
    ensures r == Decode(cmd, version, b)
    decreases |b|, 2
  {
    hide Get64, GetU16, Nested, Slot, Slots, LayoutOf;
    if |b| < 12 {
      return None;
    }
    var count := GetU16(b[8..10]);
    if |b| < 8 + 2 + count * 8 + 2 {
      return None;
    }
    var receivers := ReadIds(b, 10, count);
    var msg := ReadNested(b, 10 + 8 * count);
    if msg.None? {
      return None;
    }
    return Some(BatchPush(Slot(b, 0), receivers, msg.value));
  }

  /** A nested message: its int16 length, then the frame in a buffer of its own. */
  method ReadNested(b: seq<Byte>, at: nat) returns (r: Option<Message>)
    requires 0 < at && at + 2 <= |b|
    ensures r == Nested(b, at)
    decreases |b|, 1
  {
    hide Get16, Receive;
    var l := Get16(b[at..at + 2]);
    if l < 0 || l > |b| - at - 2 {
      return None;
    }
    var mbuffer := new Buffer(b[at + 2..at + 2 + l]);
    r := ReceiveLimitMessage(mbuffer, MESSAGE_LIMIT, false);
  }
}
