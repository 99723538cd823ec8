/** What saving a message does to the log, to the indexes and to the queues of both kinds. */
module Saving {
  import opened Bytes
  import opened Protocol
  import opened StorageFiles
  import opened Queues
  import opened Recovery

  /** Ids of a valid log, and the id a save is about to get, fit an int64. */
  lemma IdsFit(blocks: seq<seq<Message>>)
    requires BlocksOk(blocks)
    ensures Increasing(LogOf(blocks))
    ensures forall e :: e in LogOf(blocks) ==> HEADER_SIZE <= e.id < MAX_ID
  {
    hide Rec, EntriesFrom, BlockOk;
    LogIncreasing(blocks);
    forall e | e in LogOf(blocks) ensures HEADER_SIZE <= e.id < MAX_ID {
      assert exists i :: 0 <= i < |LogOf(blocks)| && LogOf(blocks)[i] == e;
    }
  }

  lemma SavedIdFits(blocks: seq<seq<Message>>, log: seq<Entry>, e: Entry)
    requires BlocksOk(blocks) && LogOf(blocks) == log + [e]
    ensures 0 < e.id < MAX_ID
  {
    hide LogOf, BlocksOk;
    IdsFit(blocks);
    assert (log + [e])[|log|] == e;
    assert e in LogOf(blocks);
  }

  lemma RecordStorable(kind: Kind, u: UserID, i: UserIndex, msgid: int, deviceId: Int64, inGroup: bool)
    ensures Storable(RecordOf(kind, u, i, msgid, deviceId, inGroup))
  {
    hide Put64, ToInt64;
    var m := RecordOf(kind, u, i, msgid, deviceId, inGroup);
    var o := m.body.off;
    assert Encode(m.body, 0) ==
      Put64s([o.appid, o.receiver, o.msgid, o.deviceId, o.seqId, o.prevMsgid, o.prevPeerMsgid, o.prevBatchMsgid]);
    assert |Encode(m.body, m.version)| == 64;
    assert LayoutOfBody(m.body) == LayoutOf(m.cmd);
    assert BodyFits(m.body, m.version);
    assert Fits(m);
  }

  lemma LastRecordSaved(log: seq<Entry>, body: Entry, rec: Entry)
    requires Increasing(log + [body, rec]) && (IsRecord(Peer, rec.msg) || IsRecord(Group, rec.msg))
    ensures LastRecordId(log + [body, rec]) == rec.id > LastRecordId(log)
  {
    hide IsRecord, Rec;
    var all := log + [body, rec];
    assert all[|all| - 1] == rec;
    assert all[|log|] == body && all[|log| + 1] == rec;
    assert HEADER_SIZE <= all[|log| + 1].id;
    assert Increasing(log) by {
      forall i, j | 0 <= i < j < |log| ensures log[i].id + |Rec(log[i].msg)| <= log[j].id {
        assert all[i].id + |Rec(all[i].msg)| <= all[j].id;
      }
      forall i | 0 <= i < |log| ensures HEADER_SIZE <= log[i].id { assert HEADER_SIZE <= all[i].id; }
    }
    LastRecordBound(log);
    if log != [] { assert all[|log| - 1].id + |Rec(all[|log| - 1].msg)| <= all[|log| + 1].id; }
  }

  /** The record a save appends, from the index of its queue. */
  lemma NewRecord(kind: Kind, index: Index, log: seq<Entry>, u: UserID, msgid: Int64, deviceId: Int64, inGroup: bool)
    requires SaneIndex(kind, index, log)
    ensures var i := Get(index, u); var m := RecordOf(kind, u, i, msgid, deviceId, inGroup);
      && m == Message(if kind == Peer then MSG_OFFLINE_V4 else MSG_GROUP_OFFLINE, 0, 0,
                      if kind == Peer && inGroup then MESSAGE_FLAG_GROUP else 0,
                      Offline4(Offline(u.appid, u.uid, msgid, deviceId, ToInt64(i.lastSeqId + 1), ToInt64(i.lastId),
                                       if kind == Peer then ToInt64(i.lastPeerId) else 0, ToInt64(i.lastBatchId))))
      && IsRecord(kind, m) && Owner(kind, m) == u && Off(kind, m).msgid == msgid
      && InGroup(kind, m) == (kind == Group || inGroup) && (kind == Group ==> i.lastPeerId == 0)
  {
    hide IsRecordId;
  }

  /** The facts about the two entries a save has just appended. */
  lemma Saved(kind: Kind, blocks: seq<seq<Message>>, log: seq<Entry>, body: Entry, rec: Entry)
    requires BlocksOk(blocks) && LogOf(blocks) == log + [body, rec] && IsRecord(kind, rec.msg)
    ensures LastRecordId(LogOf(blocks)) == rec.id > LastRecordId(log)
    ensures !IsQueueCommand(body.msg.cmd) ==>
      Replay(kind, map[], LogOf(blocks)) == Exec(kind, Replay(kind, map[], log), rec)
    ensures forall other: Kind :: other != kind && !IsQueueCommand(body.msg.cmd) ==>
      && Replay(other, map[], LogOf(blocks)) == Replay(other, map[], log)
      && (Linked(other, log) ==> Linked(other, LogOf(blocks)))
  {
    hide Rec, Queue, IndexOf, LogOf, BlocksOk, Linked, Replay, LastRecordId;
    LogIncreasing(blocks);
    LastRecordSaved(log, body, rec);
    if !IsQueueCommand(body.msg.cmd) {
      SaveReplayIff(kind, map[], log, body, rec);
      SaveReplay(Peer, map[], log, body, rec);
      SaveReplay(Group, map[], log, body, rec);
      forall other: Kind | other != kind && Linked(other, log) ensures Linked(other, LogOf(blocks)) {
        OtherLinked(other, log, body, rec);
      }
    }
  }

  /** The index after a save. */
  function NextIndex(kind: Kind, index: Index, body: Entry, rec: Entry, u: UserID): (r: Index) {
    index[u := Step(Get(index, u), rec.id, body.id, kind == Group || IsGroupMessage(body.msg))]
  }

  lemma SaneSaved(kind: Kind, index: Index, log: seq<Entry>, body: Entry, rec: Entry, u: UserID)
    requires SaneIndex(kind, index, log) && IsRecord(kind, rec.msg)
    ensures SaneIndex(kind, NextIndex(kind, index, body, rec, u), log + [body, rec])
  {
    hide IsRecord, IsGroupMessage;
    var all := log + [body, rec];
    SaneGrows(kind, index, log, all);
    assert all[|log| + 1] == rec;
    assert IsRecordId(kind, all, rec.id);
  }

  /** What a save to one queue means for each queue of its kind: it stays right, and its chain gets the new element. */
  lemma QueueSaved(kind: Kind, index: Index, log: seq<Entry>, body: Entry, rec: Entry, u: UserID, deviceId: Int64)
    requires Increasing(log + [body, rec]) && forall e :: e in log ==> e.id < MAX_ID
    requires !IsQueueCommand(body.msg.cmd) && 0 <= body.id < MAX_ID
    requires rec.msg == RecordOf(kind, u, Get(index, u), body.id, deviceId, IsGroupMessage(body.msg))
    ensures var all, next := log + [body, rec], NextIndex(kind, index, body, rec, u);
      && (forall v :: IsRight(kind, index, log, v) ==> IsRight(kind, next, all, v))
      && (forall v, w :: IsChain(kind, index, log, v, w) ==>
            IsChain(kind, next, all, v, w + NewItem(kind, body, rec, u, v)))
      && (forall v :: IsKnown(kind, index, log, v) ==> IsKnown(kind, next, all, v))
  {
    hide IsRight, IsChain, IsRecord, Increasing, NextIndex, Queue, NewItem;
    var all, next := log + [body, rec], NextIndex(kind, index, body, rec, u);
    assert all[..|log|] == log;
    PrefixIncreasing(all, |log|);
    forall v ensures IsRight(kind, index, log, v) ==> IsRight(kind, next, all, v) {
      StaysRight(kind, index, log, body, rec, u, deviceId, v);
    }
    forall v, w | IsChain(kind, index, log, v, w)
      ensures IsChain(kind, next, all, v, w + NewItem(kind, body, rec, u, v))
    {
      ChainSaved(kind, index, log, body, rec, u, deviceId, v, w);
    }
    forall v | IsKnown(kind, index, log, v) ensures IsKnown(kind, next, all, v) {
      NewItemIs(kind, log, body, rec, u, Get(index, u), deviceId, v);
    }
  }

  /** What a save adds to a queue. */
  function NewItem(kind: Kind, body: Entry, rec: Entry, u: UserID, v: UserID): (r: seq<Item>) {
    if v == u && rec.msg.body.Offline4?
    then [Item(rec.id, rec.msg.body.off, kind == Group || IsGroupMessage(body.msg), body.msg)]
    else []
  }

  lemma NewItemIs(kind: Kind, log: seq<Entry>, body: Entry, rec: Entry, u: UserID, i: UserIndex, deviceId: Int64,
                  v: UserID)
    requires !IsQueueCommand(body.msg.cmd)
    requires rec.msg == RecordOf(kind, u, i, body.id, deviceId, IsGroupMessage(body.msg))
    ensures Queue(kind, log + [body, rec], v) == Queue(kind, log, v) + NewItem(kind, body, rec, u, v)
  {
    hide Queue, IsGroupMessage;
    SaveQueue(kind, log, body, rec, v);
  }

  lemma ChainSaved(kind: Kind, index: Index, log: seq<Entry>, body: Entry, rec: Entry, u: UserID, deviceId: Int64,
                   v: UserID, w: seq<Item>)
    requires Increasing(log + [body, rec]) && forall e :: e in log ==> e.id < MAX_ID
    requires !IsQueueCommand(body.msg.cmd) && 0 <= body.id < MAX_ID && IsChain(kind, index, log, v, w)
    requires rec.msg == RecordOf(kind, u, Get(index, u), body.id, deviceId, IsGroupMessage(body.msg))
    ensures IsChain(kind, NextIndex(kind, index, body, rec, u), log + [body, rec], v,
                    w + NewItem(kind, body, rec, u, v))
  {
    hide Queue, Behind, Increasing, IsGroupMessage, Rec, ThreadOk, IsRecord;
    NewItemIs(kind, log, body, rec, u, Get(index, u), deviceId, v);
    SaveBehind(kind, log, body, rec, u, Get(index, u), deviceId, v);
    if v == u {
      LastBelow(kind, log, body, rec, u, w);
      ThreadAppend(w, NewItem(kind, body, rec, u, v)[0]);
    } else {
      assert w + [] == w;
    }
  }

  /** The last element of a chain is older than what is saved now. */
  lemma LastBelow(kind: Kind, log: seq<Entry>, body: Entry, rec: Entry, u: UserID, w: seq<Item>)
    requires Increasing(log + [body, rec]) && (forall e :: e in log ==> e.id < MAX_ID) && ThreadOk(w)
    requires forall x :: x in w ==> x in Queue(kind, log, u)
    ensures 0 <= IdBefore(w, |w|) < body.id < rec.id && IdBefore(w, |w|) < MAX_ID
  {
    hide Queue, Rec, ThreadOk;
    var all, n := log + [body, rec], |log|;
    assert all[n] == body && all[n + 1] == rec && all[..n] == log;
    assert HEADER_SIZE <= all[n].id && all[n].id + |Rec(all[n].msg)| <= all[n + 1].id;
    PrefixIncreasing(all, n);
    if w != [] {
      assert w[|w| - 1] in w;
      if n == 0 {
        NoQueue(kind, u);
      } else {
        QueueIdsBound(kind, log, u);
        assert log[n - 1] in log && all[n - 1].id + |Rec(all[n - 1].msg)| <= all[n].id;
      }
    }
  }

  lemma StaysRight(kind: Kind, index: Index, log: seq<Entry>, body: Entry, rec: Entry, u: UserID, deviceId: Int64,
                   v: UserID)
    requires Increasing(log) && (forall e :: e in log ==> e.id < MAX_ID)
    requires !IsQueueCommand(body.msg.cmd) && 0 <= body.id < MAX_ID
    requires rec.msg == RecordOf(kind, u, Get(index, u), body.id, deviceId, IsGroupMessage(body.msg))
    ensures IsRight(kind, index, log, v) ==>
      IsRight(kind, NextIndex(kind, index, body, rec, u), log + [body, rec], v)
  {
    hide Queue, LinkedQueue, Increasing, IndexOf, Step, IsGroupMessage;
    SaveQueue(kind, log, body, rec, v);
    if IsRight(kind, index, log, v) {
      IndexInRange(kind, log, v);
      SaveLinks(kind, log, body, rec, u, Get(index, u), deviceId, v);
      assert IsRecord(kind, rec.msg) && Owner(kind, rec.msg) == u && Off(kind, rec.msg).msgid == body.id;
      var item := Item(rec.id, Off(kind, rec.msg), InGroup(kind, rec.msg), body.msg);
      assert item.inGroup == (kind == Group || IsGroupMessage(body.msg));
      assert Queue(kind, log + [body, rec], v) == Queue(kind, log, v) + if v == u then [item] else [];
      assert Queue(kind, log, v) + [] == Queue(kind, log, v);
      IndexOfOneMore(Queue(kind, log, v), item);
    }
  }

  lemma IndexOfOneMore(q: seq<Item>, item: Item)
    ensures IndexOf(q + [item]) == Step(IndexOf(q), item.id, item.off.msgid, item.inGroup)
  {
    assert (q + [item])[..|q|] == q;
  }

  /** What is saved for one kind of queue does not touch those of the other. */
  lemma OtherKept(kind: Kind, index: Index, log: seq<Entry>, body: Entry, rec: Entry)
    requires !IsRecord(kind, body.msg) && !IsRecord(kind, rec.msg)
    ensures forall v :: IsRight(kind, index, log, v) ==> IsRight(kind, index, log + [body, rec], v)
    ensures forall v :: IsKnown(kind, index, log, v) ==> IsKnown(kind, index, log + [body, rec], v)
    ensures forall v, w :: IsChain(kind, index, log, v, w) ==> IsChain(kind, index, log + [body, rec], v, w)
  {
    hide IsRecord, IndexOf, Behind, LinkedQueue, Queue, ThreadOk;
    forall v
      ensures Queue(kind, log + [body, rec], v) == Queue(kind, log, v)
      ensures LinkedQueue(kind, log, v) ==> LinkedQueue(kind, log + [body, rec], v)
      ensures Behind(kind, log, v) ==> Behind(kind, log + [body, rec], v)
    {
      OtherQueue(kind, log, body, rec, v);
    }
  }

  lemma OtherQueue(kind: Kind, log: seq<Entry>, body: Entry, rec: Entry, v: UserID)
    requires !IsRecord(kind, body.msg) && !IsRecord(kind, rec.msg)
    ensures var all := log + [body, rec];
      && Queue(kind, all, v) == Queue(kind, log, v)
      && (LinkedQueue(kind, log, v) ==> LinkedQueue(kind, all, v)) && (Behind(kind, log, v) ==> Behind(kind, all, v))
  {
    hide IsRecord, IndexOf, BehindMessage, Queue;
    var all := log + [body, rec];
    assert all[|log|] == body && all[|log| + 1] == rec;
    NoRecordInQueue(kind, log, body, v);
    NoRecordInQueue(kind, log + [body], rec, v);
    assert log + [body] + [rec] == all;
    forall j | 0 <= j < |log| && IsRecord(kind, log[j].msg)
      ensures RecordOk(kind, all, j) == RecordOk(kind, log, j)
      ensures BehindMessage(kind, all, j) == BehindMessage(kind, log, j)
    {
      SameRecord(kind, log, all, j);
    }
  }

  /** A save keeps all queues of its kind right together. */
  lemma AllSaved(kind: Kind, log: seq<Entry>, body: Entry, rec: Entry, u: UserID, deviceId: Int64)
    requires Increasing(log) && (forall e :: e in log ==> e.id < MAX_ID) && Linked(kind, log)
    requires !IsQueueCommand(body.msg.cmd) && 0 <= body.id < MAX_ID
    requires rec.msg ==
      RecordOf(kind, u, Get(Replay(kind, map[], log), u), body.id, deviceId, IsGroupMessage(body.msg))
    ensures var all := log + [body, rec];
      Linked(kind, all) && NextIndex(kind, Replay(kind, map[], log), body, rec, u) == Replay(kind, map[], all)
  {
    hide Queue, Linked, Increasing, Replay, Step, IsGroupMessage;
    ReplayQueue(kind, map[], log, u);
    LinkedOne(kind, log, u);
    IndexInRange(kind, log, u);
    SaveKeepsLinked(kind, log, body, rec, u, deviceId);
    SaveReplayIff(kind, map[], log, body, rec);
    assert InGroup(kind, rec.msg) == (kind == Group || IsGroupMessage(body.msg));
  }
}
