/** The connection between master and slave, as in ims/storage_sync.go: batches on the wire, and the slave that
    applies what arrives. */
module Syncing {
  import opened Bytes
  import opened Protocol
  import opened Codec
  import opened Streams
  import opened StorageFiles
  import opened Queues
  import opened Saving
  import opened PeerStorages
  import opened Replication
  import opened Batching
  import opened Storages

  /** What a master has to send: at most 1000 messages that its store has taken, under ids of its log. */
  predicate Sendable(b: Batched) {
    && 0 <= b.firstId < MAX_ID && 0 <= b.lastId < MAX_ID && |b.msgs| <= BATCH_LIMIT
    && forall m :: m in b.msgs ==> Storable(m)
  }

  /** The message a batch is sent as; the number it gets on its connection is an int32 on the wire. */
  function Packed(b: Batched, seqNo: int): (m: Message)
    requires Sendable(b)
  {
    Message(MSG_STORAGE_SYNC_MESSAGE_BATCH, ToInt32(seqNo), 0, 0, MessageBatch(b.firstId, b.lastId, b.msgs))
  }

  /** What a client's connection carries. */
  function Wire(sent: seq<Batched>, seqNo: int): (s: seq<Byte>)
    requires forall b :: b in sent ==> Sendable(b)
    decreases |sent|
  {
    if sent == [] then [] else Frame(Packed(sent[0], seqNo)) + Wire(sent[1..], seqNo + 1)
  }

  /** Message by message: the k-th batch goes out under the k-th number, behind those before it. */
  lemma {:induction false} WireFrames(sent: seq<Batched>, seqNo: int, k: nat)
    requires k < |sent| && forall b :: b in sent ==> Sendable(b)
    ensures sent[k] in sent
    ensures Wire(sent, seqNo) ==
      Wire(sent[..k], seqNo) + Frame(Packed(sent[k], seqNo + k)) + Wire(sent[k + 1..], seqNo + k + 1)
    decreases k
  {
    hide Frame, Packed, Sendable;
    assert sent[k] in sent;
    if k == 0 {
      assert sent[..0] == [];
    } else {
      var tail := sent[1..];
      forall b | b in tail ensures Sendable(b) { assert b in sent; }
      WireFrames(tail, seqNo + 1, k - 1);
      assert tail[k - 1] == sent[k] && tail[k..] == sent[k + 1..] && sent[..k][1..] == tail[..k - 1];
      assert Wire(sent[..k], seqNo) == Frame(Packed(sent[0], seqNo)) + Wire(tail[..k - 1], seqNo + 1);
    }
  }

  lemma PackedIs(b: Batched, seqNo: int)
    requires Sendable(b)
    ensures var m := Packed(b, seqNo);
      && m.cmd == 222 && m.version == 0 && m.flag == 0 && m.body.MessageBatch?
      && m.body.firstId == b.firstId && m.body.lastId == b.lastId && m.body.msgs == b.msgs
      && (-0x8000_0000 <= seqNo < 0x8000_0000 ==> m.seqNo == seqNo)
  {
  }

  lemma {:induction false} FramesBound(msgs: seq<Message>)
    requires forall m :: m in msgs ==> Storable(m)
    ensures |Frames(msgs)| <= (MSG_HEADER_SIZE + MESSAGE_LIMIT) * |msgs|
  {
    hide Storable, Frame;
    if msgs != [] {
      assert msgs[0] in msgs;
      FrameBound(msgs[0]);
      FramesBound(msgs[1..]);
    }
  }

  lemma FrameBound(m: Message)
    requires Storable(m)
    ensures |Frame(m)| <= MSG_HEADER_SIZE + MESSAGE_LIMIT
  {
    hide Encode, Fits;
  }

  /** A batch stays below what the slave accepts, and is received as it was sent. */
  lemma BatchArrives(b: Batched, seqNo: int, rest: seq<Byte>)
    requires Sendable(b)
    ensures var m := Packed(b, seqNo);
      && |Encode(m.body, m.version)| < SYNC_LIMIT
      && Receive(Frame(m) + rest, SYNC_LIMIT, false) == Some(Received(m, |Frame(m)|))
  {
    var m := Packed(b, seqNo);
    FramesBound(b.msgs);
    BatchBytes(m.body, m.version);
    assert Fits(m);
    hide Frame, Receive, Encode, Frames;
    RoundTrip(m, rest, SYNC_LIMIT);
  }

  lemma BatchBytes(body: Body, version: int)
    requires body.MessageBatch?
    ensures |Encode(body, version)| == 20 + |Frames(body.msgs)|
  {
    hide Frames, Put64, Put32;
    assert |Put64s([body.firstId, body.lastId])| == 16;
  }

  /** What the slave does with a message. */
  function Applied(r: Replica, m: Message): (next: Replica)
    requires |r.files| > 0
    ensures |next.files| > 0
  {
    if m.cmd == MSG_STORAGE_SYNC_MESSAGE && m.body.EMessage? then SyncEntry(r, Entry(m.body.msgid, m.body.msg))
    else if m.cmd == MSG_STORAGE_SYNC_MESSAGE_BATCH && m.body.MessageBatch? then
      SyncBatch(r, m.body.firstId, m.body.msgs)
    else r
  }

  /** What it does with all that arrives until nothing more can be received. */
  function SlaveRun(r: Replica, s: seq<Byte>): (next: Replica)
    requires |r.files| > 0
    ensures |next.files| > 0
    decreases |s|
  {
    match Receive(s, SYNC_LIMIT, false)
    case None => r
    case Some(got) => SlaveRun(Applied(r, got.msg), s[got.size..])
  }

  /** The loop of `RunOnce`, on the connection to the master. */
  method RunOnce(storage: Storage, conn: Buffer)
    requires |storage.f.files| > 0 && storage.f.blockNO == |storage.f.files| - 1
    requires storage.ps.f == storage.f && storage.gs.f == storage.f
    modifies conn, storage.f, storage.ps, storage.gs
    ensures |storage.f.files| > 0 && storage.State() == SlaveRun(old(storage.State()), old(conn.data))
  {
    hide Receive, SyncEntry, SyncBatch;
    while true
      invariant |storage.f.files| > 0 && storage.f.blockNO == |storage.f.files| - 1
      invariant SlaveRun(storage.State(), conn.data) == SlaveRun(old(storage.State()), old(conn.data))
      decreases |conn.data|
    {
      ghost var was := conn.data;
      var got := ReceiveLimitMessage(conn, SYNC_LIMIT, false);
      RunStep(storage.State(), was);
      if got.None? {
        return;
      }
      var msg := got.value;
      if msg.cmd == MSG_STORAGE_SYNC_MESSAGE && msg.body.EMessage? {
        storage.SaveSyncMessage(Entry(msg.body.msgid, msg.body.msg));
      } else if msg.cmd == MSG_STORAGE_SYNC_MESSAGE_BATCH && msg.body.MessageBatch? {
        storage.SaveSyncMessageBatch(msg.body.firstId, msg.body.msgs, [], Place(0, 0), Batch(0, 0, 0));
      }
    }
  }

  lemma RunStep(r: Replica, s: seq<Byte>)
    requires |r.files| > 0
    ensures var got := Receive(s, SYNC_LIMIT, false);
      SlaveRun(r, s) == if got.None? then r else SlaveRun(Applied(r, got.value.msg), s[got.value.size..])
    ensures Receive(s, SYNC_LIMIT, false).Some? ==> |s[Receive(s, SYNC_LIMIT, false).value.size..]| < |s|
  {
    hide Receive, Applied;
  }

  /** The batches arrive as they were sent: the slave does what applying each of them does. */
  lemma {:induction false} SlaveAppliesBatches(r: Replica, sent: seq<Batched>, batches: seq<seq<Entry>>, seqNo: int)
    requires |r.files| > 0 && Carry(sent, batches) && forall b :: b in sent ==> Sendable(b)
    ensures (forall i :: 0 <= i < |batches| ==> batches[i] != [])
      && SlaveRun(r, Wire(sent, seqNo)) == SyncBatches(r, batches)
    decreases |sent|
  {
    hide Receive, SyncBatch, Frame, Sendable;
    RunStep(r, Wire(sent, seqNo));
    if sent == [] {
      NothingReceived();
    } else {
      assert sent[0] in sent;
      BatchArrives(sent[0], seqNo, Wire(sent[1..], seqNo + 1));
      var m := Packed(sent[0], seqNo);
      var s := Wire(sent, seqNo);
      assert s == Frame(m) + Wire(sent[1..], seqNo + 1);
      assert s[|Frame(m)|..] == Wire(sent[1..], seqNo + 1);
      assert sent[0] == BatchOf(batches[0]);
      SlaveAppliesBatches(Applied(r, m), sent[1..], batches[1..], seqNo + 1);
    }
  }

  /** A message sent on its own is applied under the id it carries, and the slave goes on; a message with any other
      command changes nothing. */
  lemma OneArrives(r: Replica, m: Message, rest: seq<Byte>)
    requires |r.files| > 0 && Fits(m) && |Encode(m.body, m.version)| < 33554432
    ensures m.cmd == MSG_STORAGE_SYNC_MESSAGE ==>
      && m.body.EMessage?
      && SlaveRun(r, Frame(m) + rest) == SlaveRun(SyncEntry(r, Entry(m.body.msgid, m.body.msg)), rest)
    ensures m.cmd !in {MSG_STORAGE_SYNC_MESSAGE, MSG_STORAGE_SYNC_MESSAGE_BATCH} ==>
      SlaveRun(r, Frame(m) + rest) == SlaveRun(r, rest)
  {
    hide Receive, SyncEntry, SyncBatch, Frame, Encode, BodyFits;
    RoundTrip(m, rest, SYNC_LIMIT);
    RunStep(r, Frame(m) + rest);
    assert (Frame(m) + rest)[|Frame(m)|..] == rest;
  }

  /** A message of 32 MB or more ends the connection. */
  lemma TooLong(r: Replica, m: Message, rest: seq<Byte>)
    requires |r.files| > 0 && 33554432 <= |Encode(m.body, m.version)| < 0x8000_0000
    ensures SlaveRun(r, Frame(m) + rest) == r
  {
    hide Encode, Receive, SlaveRun, Applied, Frame;
    LongFrame(m, rest, SYNC_LIMIT);
    RunStep(r, Frame(m) + rest);
  }

  lemma NothingReceived() ensures Receive([], SYNC_LIMIT, false) == None {}

  /** A stretch of the log can be sent. */
  lemma StretchSendable(blocks: seq<seq<Message>>, before: seq<Entry>, es: seq<Entry>)
    requires BlocksOk(blocks) && before + es <= LogOf(blocks) && 0 < |es| <= BATCH_LIMIT
    ensures Sendable(BatchOf(es))
  {
    hide LogOf, BlocksOk, Storable;
    var log := LogOf(blocks);
    IdsFit(blocks);
    forall i | 0 <= i < |es| ensures es[i] in log && Storable(es[i].msg) {
      assert (before + es)[|before| + i] == es[i] && log[|before| + i] == es[i];
      AllStorable(blocks, |before| + i);
    }
    assert es[0] in log && es[|es| - 1] in log;
  }

  lemma AllSendable(blocks: seq<seq<Message>>, before: seq<Entry>, sent: seq<Batched>, batches: seq<seq<Entry>>)
    requires BlocksOk(blocks) && Carry(sent, batches) && before + Joined(batches) <= LogOf(blocks)
    ensures forall b :: b in sent ==> Sendable(b)
  {
    hide LogOf, BlocksOk, Sendable, Joined;
    forall i | 0 <= i < |sent| ensures Sendable(sent[i]) {
      JoinedPrefix(batches, i);
      JoinedPrefix(batches, i + 1);
      PrefixOnLog(before, Joined(batches[..i]), batches[i], LogOf(blocks), Joined(batches));
      StretchSendable(blocks, before + Joined(batches[..i]), batches[i]);
    }
  }

  /** The slave is where it should be when the first k batches have arrived. */
  ghost predicate Arrived(blocks: seq<seq<Message>>, p: Place, sent: seq<Batched>, batches: seq<seq<Entry>>, seqNo: int,
                          k: nat)
    requires IsPlace(blocks, p) && k <= |sent| == |batches| && forall b :: b in sent ==> Sendable(b)
  {
    var q := Follow(blocks, p, |Joined(batches[..k])|);
    IsPlace(blocks, q) && SlaveRun(ImageAt(blocks, p), Wire(sent[..k], seqNo)) == ImageAt(blocks, q)
  }

  /** From the master's loop over the wire to the slave's files and indexes: however messages and timeouts came, a
      slave that has the master's log as far as p, where its stream begins, is in step with it after every batch
      exactly when no batch crosses a block. With all batches it then has all that was sent, and when the master's
      cache is empty, as after every timeout, all that was saved. */
  lemma MasterToSlave(master: Master, blocks: seq<seq<Message>>, p: Place, seqNo: int)
    requires master.Valid() && BlocksOk(blocks) && IsPlace(blocks, p)
    requires LogTo(blocks, p) + master.Stream() <= LogOf(blocks)
    ensures (forall b :: b in master.sent ==> Sendable(b)) && |master.sent| == |master.batches|
    ensures (forall k :: 0 <= k <= |master.sent| ==> Arrived(blocks, p, master.sent, master.batches, seqNo, k))
      <==> forall i :: 0 <= i < |master.batches| ==> OneBlock(master.batches[i])
    ensures var q := Follow(blocks, p, |Joined(master.batches)|);
      && IsPlace(blocks, q) && LogTo(blocks, q) == LogTo(blocks, p) + Joined(master.batches)
      && (master.cache == [] ==> LogTo(blocks, q) == LogTo(blocks, p) + master.Stream())
      && ((forall i :: 0 <= i < |master.batches| ==> OneBlock(master.batches[i])) ==>
            SlaveRun(ImageAt(blocks, p), Wire(master.sent, seqNo)) == ImageAt(blocks, q))
  {
    hide LogOf, BlocksOk, Sendable, Joined, ImageAt, Follow, SyncBatches, OneBlock, LogTo, Wire, SlaveRun;
    var sent, batches, before := master.sent, master.batches, LogTo(blocks, p);
    assert before + Joined(batches) <= before + (Joined(batches) + master.cache);
    AllSendable(blocks, before, sent, batches);
    LiveReplicationIff(blocks, p, batches);
    forall k | 0 <= k <= |sent|
      ensures Arrived(blocks, p, sent, batches, seqNo, k) <==> InStep(blocks, p, batches, k)
    {
      SlaveAppliesBatches(ImageAt(blocks, p), sent[..k], batches[..k], seqNo);
    }
    StreamFollows(blocks, p, Joined(batches));
    assert Joined(batches) + [] == Joined(batches);
    assert sent[..|sent|] == sent && batches[..|batches|] == batches;
    if forall i :: 0 <= i < |batches| ==> OneBlock(batches[i]) {
      assert Arrived(blocks, p, sent, batches, seqNo, |sent|);
    }
  }
}
