/** Users' queues: saving, paging and counting, as in ims/peer_storage.go. */
module PeerStorages {
  import opened Bytes
  import opened Protocol
  import opened StorageFiles
  import opened Queues
  import opened Paging
  import opened Answers
  import opened Recovery
  import opened Saving

  /** `IOfflineMessage.Body`, for the bodies that have one. */
  function OfflineOf(m: Message): (r: Option<Offline>) {
    if m.body.Offline3? || m.body.Offline4? then Some(m.body.off) else None
  }

  class PeerStorage {
    const f: StorageFile
    var index: Index

    constructor (file: StorageFile)
      ensures f == file && index == map[]
    {
      f := file;
      index := map[];
    }

    /** What holds of every store, also after a restart that has not recovered all queues: the last ids that the
        index knows are ids of users' records. */
    ghost predicate Sane()
      reads this, f
    {
      f.Valid() && SaneIndex(Peer, index, f.Log()) && 0 <= f.lastId <= LastRecordId(f.Log())
    }

    /** One user is right, whatever the others are like. */
    ghost predicate Right(u: UserID)
      reads this, f
    {
      IsRight(Peer, index, f.Log(), u)
    }

    /** All users are: their records are linked, and the index is what replaying the whole log gives. */
    ghost predicate Valid()
      reads this, f
    {
      Sane() && Linked(Peer, f.Log()) && index == Replay(Peer, map[], f.Log())
    }

    lemma ValidIsRight(u: UserID)
      requires Valid()
      ensures Right(u)
    {
      hide LogOf, Queue, Linked, LinkedQueue, Replay, SaneIndex;
      LinkedOne(Peer, f.Log(), u);
      CountedIff(Peer, index, f.Log(), u);
    }

    ghost function Messages(appid: Int64, uid: Int64): (r: seq<Item>)
      reads f
    {
      Queue(Peer, f.Log(), UserID(appid, uid))
    }

    function GetPeerIndex(appid: Int64, uid: Int64): (r: UserIndex)
      reads this
    {
      Get(index, UserID(appid, uid))
    }

    method SetPeerIndex(appid: Int64, uid: Int64, ui: UserIndex)
      modifies `index, f`lastId
      ensures index == old(index)[UserID(appid, uid) := ui]
      ensures f.lastId == if ui.lastId > old(f.lastId) then ui.lastId else old(f.lastId)
    {
      index := index[UserID(appid, uid) := ui];
      if ui.lastId > f.lastId {
        f.lastId := ui.lastId;
      }
    }

    /** What the index says about a queue that is right. */
    lemma IndexFacts(appid: Int64, uid: Int64)
      requires f.Valid() && Right(UserID(appid, uid))
      ensures var q := Messages(appid, uid);
        && GetPeerIndex(appid, uid) == IndexOf(q) && InRange(IndexOf(q)) && QueueOk(q)
        && (forall item :: item in q ==> Loads(f.files, item))
    {
      hide LogOf, Queue, BlocksOk, Loads, LinkedQueue;
      var u := UserID(appid, uid);
      IdsFit(f.blocks);
      LinkedOne(Peer, f.Log(), u);
      IndexInRange(Peer, f.Log(), u);
      QueueStructure(Peer, f.Log(), u);
      QueueLoads(Peer, f.files, f.blocks, |f.Log()|, u);
      assert f.Log()[..|f.Log()|] == f.Log();
    }

    /** Appends the message and its record and moves the user's index on. Right users stay right; all together stay
        what replay gives; groups are not touched. None of this if the message is itself a queue record. */
    method SavePeerMessage(appid: Int64, uid: Int64, deviceId: Int64, msg: Message) returns (msgid: int, prevMsgid: int)
      requires Sane() && Storable(msg) && |f.files| < MAX_BLOCKS - 1
      modifies this, f
      ensures Sane() && 0 < msgid < MAX_ID
      ensures var i := old(GetPeerIndex(appid, uid)); var grouped := IsGroupMessage(msg);
        var rec := Entry(f.lastId, RecordOf(Peer, UserID(appid, uid), i, msgid, deviceId, grouped));
        && prevMsgid == i.lastMsgid
        && f.Log() == old(f.Log()) + [Entry(msgid, msg), rec]
        && f.ewt == old(f.ewt) + [Entry(msgid, msg), rec]
        && index == old(index)[UserID(appid, uid) := Step(i, rec.id, msgid, grouped)]
      ensures PeerSavedAs(old(f.Log()), f.Log(), old(GetPeerIndex(appid, uid)), GetPeerIndex(appid, uid), appid, uid,
                          deviceId, msg, msgid, f.lastId)
      ensures !IsQueueCommand(msg.cmd) ==> (old(Valid()) ==> Valid()) && forall v :: old(Right(v)) ==> Right(v)
      ensures !IsQueueCommand(msg.cmd) ==> Replay(Group, map[], f.Log()) == old(Replay(Group, map[], f.Log()))
      ensures !IsQueueCommand(msg.cmd) && old(Linked(Group, f.Log())) ==> Linked(Group, f.Log())
      ensures f.lastId == LastRecordId(f.Log())
      ensures f.lastId > old(f.lastId) && f.lastSavedId == old(f.lastSavedId) && |f.files| <= old(|f.files|) + 2
    {
      hide LogOf, Replay, BlocksOk, Storable, Append, NextId, Rec, RecordOf, LastRecordId, Linked, Renders, SaneIndex,
        IsRight, IsKnown, IsChain, NewItem, PeerSavedAs, Written;
      ghost var log, u, was := f.Log(), UserID(appid, uid), index;
      IdsFit(f.blocks);
      msgid := f.SaveMessage(msg);
      SavedIdFits(f.blocks, log, Entry(msgid, msg));

      var ui := GetPeerIndex(appid, uid);
      var lastId, lastPeerId, lastBatchId, lastSeqId := ui.lastId, ui.lastPeerId, ui.lastBatchId, ui.lastSeqId;
      var off := Offline(appid, uid, msgid, deviceId, ToInt64(lastSeqId + 1), ToInt64(lastId), ToInt64(lastPeerId),
                         ToInt64(lastBatchId));
      var flag := 0;
      if IsGroupMessage(msg) {
        flag := MESSAGE_FLAG_GROUP;
      }
      var m := Message(MSG_OFFLINE_V4, 0, 0, flag, Offline4(off));
      NewRecord(Peer, index, log, u, msgid, deviceId, IsGroupMessage(msg));
      RecordStorable(Peer, u, ui, msgid, deviceId, IsGroupMessage(msg));
      lastId := f.SaveMessage(m);
      if !IsGroupMessage(msg) {
        lastPeerId := lastId;
      }
      lastSeqId := lastSeqId + 1;
      if lastSeqId % BATCH_SIZE == 0 {
        lastBatchId := lastId;
      }
      ghost var body, rec := Entry(msgid, msg), Entry(lastId, m);
      assert f.Log() == log + [body, rec];
      Saved(Peer, f.blocks, log, body, rec);
      LogIncreasing(f.blocks);
      SetPeerIndex(appid, uid, UserIndex(msgid, lastId, lastPeerId, lastBatchId, lastSeqId));
      SaneSaved(Peer, was, log, body, rec, u);
      if !IsQueueCommand(msg.cmd) {
        QueueSaved(Peer, was, log, body, rec, u, deviceId);
        if old(Valid()) { AllSaved(Peer, log, body, rec, u, deviceId); }
      }
      PeerSaveStores(log, body, rec, u, ui, deviceId);
      prevMsgid := ui.lastMsgid;
    }

    /** `SavePeerGroupMessage`: a copy for each member, in list order, at the end of the member's queue; the result
        holds each copy's id and the id of the member's message before it. */
    method SavePeerGroupMessage(appid: Int64, members: seq<Int64>, deviceId: Int64, msg: Message) returns (r: seq<int>)
      requires Sane() && Storable(msg) && !IsQueueCommand(msg.cmd) && |f.files| + 2 * |members| < MAX_BLOCKS
      modifies this, f
      ensures Sane() && (old(Valid()) ==> Valid()) && forall v :: old(Right(v)) ==> Right(v)
      ensures (forall m :: m in members ==> old(Right(UserID(appid, m)))) ==>
        Copied(old(f.Log()), f.Log(), appid, members, msg, deviceId, r)
    {
      hide LogOf, Replay, Queue, BlocksOk, Storable, Loads, RecordOf, LastRecordId, Linked, Renders, Copied, Step,
        SaneIndex, IsRight, PeerSavedAs;
      r := [];
      CopiedNone(f.Log(), appid, members, msg, deviceId);
      ghost var right := forall m :: m in members ==> Right(UserID(appid, m));
      for k := 0 to |members|
        invariant Sane() && (old(Valid()) ==> Valid()) && forall v :: old(Right(v)) ==> Right(v)
        invariant |f.files| <= old(|f.files|) + 2 * k
        invariant right ==> Copied(old(f.Log()), f.Log(), appid, members[..k], msg, deviceId, r)
      {
        ghost var log, i := f.Log(), GetPeerIndex(appid, members[k]);
        if right {
          assert old(Right(UserID(appid, members[k])));
          IndexFacts(appid, members[k]);
          IndexClosed(Messages(appid, members[k]));
        }
        var msgid, prevMsgid := SavePeerMessage(appid, members[k], deviceId, msg);
        if right {
          CopiedOne(old(f.Log()), log, appid, members[..k], Entry(msgid, msg), f.lastId, members[k], i, deviceId, r);
        }
        r := r + [msgid, prevMsgid];
        assert members[..k + 1] == members[..k] + [members[k]];
      }
      assert members[..|members|] == members;
    }

    /** First loop of `LoadHistoryMessagesV3`: the batch ends above the key, newest first. */
    method FindBatches(ghost q: seq<Item>, start: int, key: int, hard: nat) returns (batchIds: seq<int>)
      requires f.Valid() && QueueOk(q) && (forall item :: item in q ==> Loads(f.files, item))
      requires start == BatchId(q, |q| / BATCH_SIZE)
      ensures |batchIds| == BatchesAbove(|q|, Below(q, key), hard)
      ensures forall x :: 0 <= x < |batchIds| ==> batchIds[x] == BatchId(q, |q| / BATCH_SIZE - x)
    {
      hide QueueOk, LoadFrom, Below, BlocksOk, Renders, LogOf, Loads;
      ghost var s, j := Below(q, key), |q| / BATCH_SIZE;
      BelowSplits(q, key);
      var hardBatchCount := hard / BATCH_SIZE;
      var last := start;
      ghost var i: nat := j;
      batchIds := [];
      while true
        invariant i <= j && last == BatchId(q, i) && |batchIds| == j - i
        invariant forall x :: 0 <= x < |batchIds| ==> batchIds[x] == BatchId(q, j - x)
        invariant hardBatchCount > 0 ==> |batchIds| < hardBatchCount
        invariant i < j ==> BATCH_SIZE * (i + 1) > s
        decreases i
      {
        if i > 0 { BatchLoads(f.files, q, i); }
        if last <= key {
          break;
        }
        var m := f.LoadMessage(last);
        if m.None? {
          break;
        }
        var off := OfflineOf(m.value);
        if off.None? || off.value.msgid <= key {
          break;
        }
        batchIds := batchIds + [last];
        last := off.value.prevBatchMsgid;
        i := i - 1;
        if hardBatchCount > 0 && |batchIds| >= hardBatchCount {
          break;
        }
      }
    }

    /** Second loop of `LoadHistoryMessagesV3`: walks the links down to the key or the limit. */
    method Collect(ghost w: seq<Item>, start: int, key: int, isPeer: bool, limit: nat)
      returns (messages: seq<Delivery>, lastMsgid: int, lastOfflineId: int)
      requires f.Valid() && ChainOk(w, isPeer) && (forall item :: item in w ==> Loads(f.files, item))
      requires start == IdBefore(w, |w|)
      ensures messages == Reverse(Newest(Shown(w[Below(w, key)..]), limit))
      ensures lastMsgid == if w == [] then 0 else w[|w| - 1].off.msgid
      ensures lastOfflineId == IdBefore(w, |w|)
    {
      hide LoadFrom, BlocksOk, Renders, LogOf, Loads, Shown, Reverse, IsShown, ChainOk, Below, Newest;
      messages, lastMsgid, lastOfflineId := [], 0, 0;
      var lastId := start;
      ghost var k: nat := |w|;
      EmptyTail(w);
      while true
        invariant k <= |w| && lastId == IdBefore(w, k)
        invariant k < |w| ==> lastMsgid == w[|w| - 1].off.msgid > 0 && lastOfflineId == w[|w| - 1].id
        invariant k == |w| ==> lastMsgid == 0 && lastOfflineId == 0
        invariant messages == Reverse(Shown(w[k..]))
        invariant limit > 0 ==> |messages| < limit
        invariant Below(w, key) == Below(w[..k], key)
        decreases k
      {
        if k > 0 { ChainItem(f.files, w, k - 1, isPeer); }
        BelowAt(w, k, key);
        var m := f.LoadMessage(lastId);
        if m.None? {
          break;
        }
        var found := OfflineOf(m.value);
        if found.None? {
          break;
        }
        var off := found.value;
        if lastMsgid == 0 {
          lastMsgid := off.msgid;
          lastOfflineId := lastId;
        }
        if off.msgid <= key {
          break;
        }
        m := f.LoadMessage(off.msgid);
        if m.None? {
          break;
        }
        k := k - 1;
        CollectStep(w, k);
        if !IsShown(m.value.cmd) {
          lastId := if isPeer then off.prevPeerMsgid else off.prevMsgid;
          continue;
        }
        messages := messages + [Delivery(off.msgid, off.deviceId, m.value)];
        if limit > 0 && |messages| >= limit {
          break;
        }
        lastId := if isPeer then off.prevPeerMsgid else off.prevMsgid;
      }
      CollectEnd(w, k, key, limit);
    }

    /** `LoadHistoryMessagesV3`: one page of a user's queue above a key. */
    method LoadHistoryMessagesV3(appid: Int64, receiver: Int64, syncMsgid: int, limit: nat, hardLimit: nat)
      returns (messages: seq<Delivery>, lastMsgid: int, hasMore: bool)
      requires f.Valid() && Right(UserID(appid, receiver))
      ensures Page(messages, lastMsgid, hasMore) == PageOf(Messages(appid, receiver), syncMsgid, limit, hardLimit)
      ensures Answer(Messages(appid, receiver), syncMsgid, limit, hardLimit, Page(messages, lastMsgid, hasMore))
    {
      hide LogOf, Queue, BlocksOk, Loads, LoadFrom, QueueOk, Below, Chain, Window, Shown, Renders, IsRight, ChainOk,
        Reverse, Newest, InRange, LastPeer, Answer;
      ghost var q := Messages(appid, receiver);
      IndexFacts(appid, receiver);
      IndexClosed(q);
      var index := GetPeerIndex(appid, receiver);
      var hardBatchCount, batchCount := hardLimit / BATCH_SIZE, limit / BATCH_SIZE;
      if batchCount == 0 {
        batchCount := 1;
      }
      var batchIds := FindBatches(q, index.lastBatchId, syncMsgid, hardLimit);
      ghost var s := Below(q, syncMsgid);
      ghost var e := PageEnd(|q|, s, limit, hardLimit);
      var isPeer, lastId := false, index.lastId;
      if hardBatchCount > 0 && |batchIds| >= hardBatchCount && hardBatchCount >= batchCount {
        lastId := batchIds[|batchIds| - batchCount];
        isPeer := true;
      } else if |batchIds| >= batchCount {
        lastId := batchIds[|batchIds| - batchCount];
      }
      ghost var w := Chain(q, e, isPeer);
      ChainStarts(q, e, isPeer);
      ChainIsOk(q, e, isPeer);
      ChainAboveKey(q, syncMsgid, e, isPeer);
      var lastOfflineId;
      messages, lastMsgid, lastOfflineId := Collect(w, lastId, syncMsgid, isPeer, limit);
      hasMore := lastOfflineId > 0 && lastOfflineId < index.lastId;
      LastIdOrder(q, e);
      AnswerIs(q, syncMsgid, limit, hardLimit);
    }

    /** `GetNewCount`: how many messages the user got after the one with this id. */
    method GetNewCount(appid: Int64, uid: Int64, lastReceivedId: int) returns (count: int)
      requires f.Valid() && Right(UserID(appid, uid))
      ensures var q, u := Messages(appid, uid), UserID(appid, uid);
        && (lastReceivedId == 0 ==> count == |q|)
        && (forall k :: 0 <= k < |q| && q[k].off.msgid == lastReceivedId ==> count == |q| - 1 - k)
        && (forall i :: 0 <= i < |f.Log()| && f.Log()[i].id == lastReceivedId ==>
              OtherCount(f.Log(), u, lastReceivedId, count))
    {
      hide BlocksOk, Loads, LoadFrom, QueueOk, Renders, ReadMessage, Rec, ReadNext, OtherCount, LogOf, Queue,
        LinkedQueue;
      ghost var q, u := Messages(appid, uid), UserID(appid, uid);
      IndexFacts(appid, uid);
      IndexClosed(q);
      NewCounts(f.files, f.blocks, u, lastReceivedId);
      ReadPairs(f.files, f.blocks, lastReceivedId);
      forall i | 0 <= i < |f.Log()| && f.Log()[i].id == lastReceivedId
        ensures OtherCount(f.Log(), u, lastReceivedId, CountFrom(Following(f.Log(), i), lastReceivedId, u, |q|))
      {
        OtherCounts(f.blocks, u, i);
      }
      assert q == Queue(Peer, LogOf(f.blocks), u);
      var lastSeqId := GetPeerIndex(appid, uid).lastSeqId;
      if lastReceivedId == 0 {
        forall k | 0 <= k < |q| ensures q[k].off.msgid > 0 { IdsGrow(q, k, k); }
        return lastSeqId;
      }
      var next := ReadNext(f.files, lastReceivedId);
      if next.None? {
        return 0;
      }
      var found := OfflineOf(next.value);
      if found.None? || found.value.msgid != lastReceivedId {
        return 0;
      }
      var off := found.value;
      if off.appid != appid || off.receiver != uid || lastSeqId < off.seqId {
        return 0;
      }
      return lastSeqId - off.seqId;
    }

    /** `readPeerIndex`: takes up an index file, whether or not it is right. */
    method ReadPeerIndex(file: seq<Byte>, ghost saved: Index, ghost order: seq<UserID>, ghost log: seq<Entry>)
      requires index == map[] && 0 <= f.lastId && Increasing(log) && (forall e :: e in log ==> e.id < MAX_ID)
      requires SaneIndex(Peer, saved, log) && Lists(order, saved) && file == IndexBytes(Peer, saved, order)
      modifies this, f`lastId
      ensures index == Narrowed(Peer, saved) && f.lastId == Max(old(f.lastId), MaxLastId(0, saved, order))
    {
      var r := ReadSaved(Peer, f.lastId, file, saved, order, log);
      index, f.lastId := r.index, r.lastId;
    }

    /** `createPeerIndex`: replays the whole log. */
    method CreatePeerIndex()
      requires f.Valid() && index == map[] && 0 <= f.lastId
      modifies this, f`lastId
      ensures f.Valid() && index == Replay(Peer, map[], f.Log())
      ensures f.lastId == Max(old(f.lastId), LastIdOf(Peer, f.Log()))
    {
      var r := RebuildAll(Peer, Recovered(index, f.lastId), f.files, f.blocks);
      index, f.lastId := r.index, r.lastId;
    }

    /** `repairPeerIndex`: continues the index read from its file from the record at the last id on. */
    method RepairPeerIndex()
      requires f.Valid() && (f.lastId == 0 || PlaceOf(f.Log(), f.lastId) < |f.Log()|)
      modifies this, f`lastId
      ensures f.Valid() && PeerResume(f.blocks, old(f.lastId)) <= |f.Log()|
      ensures index == Replay(Peer, old(index), f.Log()[PeerResume(f.blocks, old(f.lastId))..])
      ensures f.lastId == Max(old(f.lastId), LastIdOf(Peer, f.Log()[PeerResume(f.blocks, old(f.lastId))..]))
    {
      hide Replay, LogOf, BlocksOk, Renders, LastIdOf, PlaceOf, StartsAt;
      RepairStarts(f.blocks, f.lastId);
      RepairSkips(Peer, f.blocks, Recovered(index, f.lastId));
      var r := ExecBlocks(Peer, true, Recovered(index, f.lastId), f.files,
                          GetBlockNO(f.lastId), GetBlockOffset(f.lastId), f.blocks, RepairPlace(f.blocks, f.lastId));
      index, f.lastId := r.index, r.lastId;
    }
  }

  /** The n-th element of a queue is a copy of the message under its id, and `prev` the id before. */
  predicate CopyAt(q: seq<Item>, n: int, msg: Message, deviceId: Int64, msgid: int, prev: int) {
    && 0 <= n < |q| && q[n].off.msgid == msgid && q[n].body == msg && q[n].off.deviceId == deviceId
    && prev == if n == 0 then 0 else q[n - 1].off.msgid
  }

  /** What one save does to the users' queues. */
  lemma PeerSaved(log: seq<Entry>, body: Entry, id: int, appid: Int64, uid: Int64, i: UserIndex, deviceId: Int64,
                  other: Int64)
    requires !IsQueueCommand(body.msg.cmd) && 0 < body.id < MAX_ID
    ensures var rec := Entry(id, RecordOf(Peer, UserID(appid, uid), i, body.id, deviceId, IsGroupMessage(body.msg)));
      var was, q := QueueOf(log, appid, other), QueueOf(log + [body, rec], appid, other);
      && was <= q && |q| == |was| + (if other == uid then 1 else 0)
      && (other == uid ==> CopyAt(q, |was|, body.msg, deviceId, body.id,
                                   if was == [] then 0 else was[|was| - 1].off.msgid))
  {
    hide Queue;
    var rec := Entry(id, RecordOf(Peer, UserID(appid, uid), i, body.id, deviceId, IsGroupMessage(body.msg)));
    SaveQueue(Peer, log, body, rec, UserID(appid, other));
  }

  function QueueOf(log: seq<Entry>, appid: Int64, uid: Int64): (q: seq<Item>) { Queue(Peer, log, UserID(appid, uid)) }

  /** Between two states of the log each member got a copy per mention, in list order at the end of the member's
      queue; `r` lists the ids of the copies, each with the id of the member's message before it. */
  ghost predicate Copied(was: seq<Entry>, log: seq<Entry>, appid: Int64, members: seq<Int64>, msg: Message,
                         deviceId: Int64, r: seq<int>)
  {
    && was <= log && |r| == 2 * |members|
    && (forall uid :: |QueueOf(log, appid, uid)| == |QueueOf(was, appid, uid)| + multiset(members)[uid])
    && (forall k :: 0 <= k < |members| ==> CopyOf(was, log, appid, members, msg, deviceId, r, k))
  }

  ghost predicate CopyOf(was: seq<Entry>, log: seq<Entry>, appid: Int64, members: seq<Int64>, msg: Message,
                         deviceId: Int64, r: seq<int>, k: nat)
    requires k < |members| && |r| == 2 * |members|
  {
    CopyAt(QueueOf(log, appid, members[k]),
           |QueueOf(was, appid, members[k])| + multiset(members[..k])[members[k]], msg, deviceId,
           r[2 * k], r[2 * k + 1])
  }

  lemma CopiedNone(log: seq<Entry>, appid: Int64, members: seq<Int64>, msg: Message, deviceId: Int64)
    ensures Copied(log, log, appid, members[..0], msg, deviceId, [])
  {
    hide Queue;
  }

  lemma CopiedOne(was: seq<Entry>, log: seq<Entry>, appid: Int64, members: seq<Int64>, body: Entry, id: int,
                  uid: Int64, i: UserIndex, deviceId: Int64, r: seq<int>)
    requires Copied(was, log, appid, members, body.msg, deviceId, r)
    requires !IsQueueCommand(body.msg.cmd) && 0 < body.id < MAX_ID
    requires var q := QueueOf(log, appid, uid); i.lastMsgid == if q == [] then 0 else q[|q| - 1].off.msgid
    ensures var rec := Entry(id, RecordOf(Peer, UserID(appid, uid), i, body.id, deviceId, IsGroupMessage(body.msg)));
      Copied(was, log + [body, rec], appid, members + [uid], body.msg, deviceId, r + [body.id, i.lastMsgid])
  {
    hide QueueOf, RecordOf, CopyOf, CopyAt;
    var rec := Entry(id, RecordOf(Peer, UserID(appid, uid), i, body.id, deviceId, IsGroupMessage(body.msg)));
    var next, more := log + [body, rec], r + [body.id, i.lastMsgid];
    var all: seq<Int64> := members + [uid];
    forall v
      ensures QueueOf(log, appid, v) <= QueueOf(next, appid, v)
      ensures |QueueOf(next, appid, v)| == |QueueOf(was, appid, v)| + multiset(all)[v]
    {
      PeerSaved(log, body, id, appid, uid, i, deviceId, v);
    }
    forall k | 0 <= k < |all| ensures CopyOf(was, next, appid, all, body.msg, deviceId, more, k) {
      if k < |members| {
        EarlierCopy(was, log, next, appid, members, uid, body.msg, deviceId, r, [body.id, i.lastMsgid], k);
      } else {
        PeerSaved(log, body, id, appid, uid, i, deviceId, uid);
        LastCopy(was, next, appid, members, uid, body.msg, deviceId, r, [body.id, i.lastMsgid]);
      }
    }
    assert was <= next;
  }

  lemma EarlierCopy(was: seq<Entry>, log: seq<Entry>, next: seq<Entry>, appid: Int64, members: seq<Int64>, uid: Int64,
                    msg: Message, deviceId: Int64, r: seq<int>, ids: seq<int>, k: nat)
    requires k < |members| && |r| == 2 * |members| && |ids| == 2
    requires CopyOf(was, log, appid, members, msg, deviceId, r, k)
    requires QueueOf(log, appid, members[k]) <= QueueOf(next, appid, members[k])
    ensures CopyOf(was, next, appid, members + [uid], msg, deviceId, r + ids, k)
  {
    hide QueueOf;
    assert (members + [uid])[..k] == members[..k] && (members + [uid])[k] == members[k];
  }

  lemma LastCopy(was: seq<Entry>, next: seq<Entry>, appid: Int64, members: seq<Int64>, uid: Int64, msg: Message,
                 deviceId: Int64, r: seq<int>, ids: seq<int>)
    requires |r| == 2 * |members| && |ids| == 2
    requires CopyAt(QueueOf(next, appid, uid), |QueueOf(was, appid, uid)| + multiset(members)[uid], msg, deviceId,
                    ids[0], ids[1])
    ensures CopyOf(was, next, appid, members + [uid], msg, deviceId, r + ids, |members|)
  {
    hide QueueOf;
    assert (members + [uid])[..|members|] == members;
  }

  /** What saving a message for a user writes and remembers, field by field: a group message, by its command or by its
      flag, is marked and stays outside the peer links; any other message is linked among the user's peer messages. */
  ghost predicate PeerSavedAs(was: seq<Entry>, log: seq<Entry>, i: UserIndex, next: UserIndex, appid: Int64, uid: Int64,
                              deviceId: Int64, msg: Message, msgid: int, id: int)
  {
    var grouped := msg.cmd == MSG_GROUP_IM || msg.flag / 4 % 2 == 1;
    && -0x8000_0000_0000_0000 <= msgid < 0x8000_0000_0000_0000
    && log == was + [Entry(msgid, msg),
         Entry(id, Message(MSG_OFFLINE_V4, 0, 0, if grouped then 4 else 0,
           Offline4(Offline(appid, uid, msgid, deviceId, ToInt64(i.lastSeqId + 1), ToInt64(i.lastId),
                            ToInt64(i.lastPeerId), ToInt64(i.lastBatchId)))))]
    && next == UserIndex(msgid, id, if grouped then i.lastPeerId else id,
         if (i.lastSeqId + 1) % 1000 == 0 then id else i.lastBatchId, i.lastSeqId + 1)
  }

  lemma PeerSaveStores(was: seq<Entry>, body: Entry, rec: Entry, u: UserID, i: UserIndex, deviceId: Int64)
    requires 0 < body.id < MAX_ID && rec.msg == RecordOf(Peer, u, i, body.id, deviceId, IsGroupMessage(body.msg))
    ensures PeerSavedAs(was, was + [body, rec], i, Step(i, rec.id, body.id, IsGroupMessage(body.msg)), u.appid, u.uid,
                        deviceId, body.msg, body.id, rec.id)
  {
  }

  lemma BatchLoads(files: seq<seq<Byte>>, q: seq<Item>, i: nat)
    requires QueueOk(q) && (forall item :: item in q ==> Loads(files, item)) && 0 < i && BATCH_SIZE * i <= |q|
    ensures var r, item := LoadFrom(files, BatchId(q, i)), q[BATCH_SIZE * i - 1];
      && r.Some? && r.value.body.Offline4? && r.value.body.off.msgid == item.off.msgid < item.id == BatchId(q, i)
      && r.value.body.off.prevBatchMsgid == BatchId(q, i - 1)
  {
    hide LoadFrom;
    BatchLink(q, i);
    assert q[BATCH_SIZE * i - 1] in q && ItemOk(q, BATCH_SIZE * i - 1);
  }

  /** All a walk needs to know about one record of its chain. */
  lemma ChainItem(files: seq<seq<Byte>>, w: seq<Item>, k: nat, isPeer: bool)
    requires k < |w| && ChainOk(w, isPeer) && forall item :: item in w ==> Loads(files, item)
    ensures var r := LoadFrom(files, w[k].id);
      && r.Some? && r.value.body.Offline4? && r.value.body.off == w[k].off
      && LoadFrom(files, w[k].off.msgid) == Some(w[k].body)
      && (if isPeer then w[k].off.prevPeerMsgid else w[k].off.prevMsgid) == IdBefore(w, k)
      && 0 < w[k].off.msgid
  {
    hide LoadFrom;
    assert w[k] in w;
  }

  lemma BelowAt(w: seq<Item>, k: nat, key: int)
    requires k <= |w|
    ensures Below(w[..k], key) == if k == 0 then 0 else if w[k - 1].off.msgid <= key then k else Below(w[..k - 1], key)
  {
    if k > 0 { assert w[..k][..k - 1] == w[..k - 1]; }
  }

  lemma EmptyTail(w: seq<Item>)
    ensures w[|w|..] == [] && Reverse(Shown(w[|w|..])) == [] && w[..|w|] == w
  {
  }

  /** Adding one older record to what was collected. */
  lemma CollectStep(w: seq<Item>, k: nat)
    requires k < |w|
    ensures Reverse(Shown(w[k..])) == Reverse(Shown(w[k + 1..])) +
      (if IsShown(w[k].body.cmd) then [DeliveryOf(w[k])] else [])
  {
    hide IsShown;
    assert w[k..] == [w[k]] + w[k + 1..];
    ShownConcat([w[k]], w[k + 1..]);
    ShownOne(w[k]);
    ReverseAppend(Shown([w[k]]), Shown(w[k + 1..]));
    ReverseOne(Shown([w[k]]));
  }

  lemma ShownOne(item: Item)
    ensures Shown([item]) == if IsShown(item.body.cmd) then [DeliveryOf(item)] else []
  {
    assert [item][..0] == [];
    assert Shown([item][..0]) == [];
  }

  lemma ReverseOne<T>(s: seq<T>)
    requires |s| <= 1
    ensures Reverse(s) == s
  {
    if s != [] { assert s[..0] == []; assert Reverse(s[..0]) == []; }
  }

  /** What the walk holds when it stops at record k, or at the limit. */
  lemma CollectEnd(w: seq<Item>, k: nat, key: int, limit: nat)
    requires k <= |w| && Below(w, key) <= k
    requires Below(w, key) == k || (limit > 0 && |Shown(w[k..])| == limit)
    requires limit == 0 || |Shown(w[k..])| <= limit
    ensures Shown(w[k..]) == Newest(Shown(w[Below(w, key)..]), limit)
  {
    hide Reverse, Shown;
    var b := Below(w, key);
    assert w[b..] == w[b..k] + w[k..];
    ShownConcat(w[b..k], w[k..]);
  }

  lemma ChainStarts(q: seq<Item>, e: nat, peer: bool)
    requires e <= |q|
    ensures var w := Chain(q, e, peer);
      IdBefore(w, |w|) == IdBefore(q, e) && (w == [] <==> e == 0) && (e > 0 ==> w[|w| - 1] == q[e - 1])
  {
  }

  lemma LastIdOrder(q: seq<Item>, e: nat)
    requires QueueOk(q) && e <= |q|
    ensures 0 <= IdBefore(q, e) && (IdBefore(q, e) == 0 <==> e == 0)
    ensures e > 0 ==> (IdBefore(q, e) < IdBefore(q, |q|) <==> e < |q|)
  {
    if e > 0 {
      IdsIncrease(q, e - 1, e - 1);
      if e < |q| { IdsIncrease(q, e - 1, |q| - 1); }
    }
  }

  // ---------- counting from a message id ----------

  /** The message that follows the one with this id: next in its block, or first in the next block. */
  function ReadNext(files: seq<seq<Byte>>, id: int): (r: Option<Message>) {
    var block, offset := GetBlockNO(id), GetBlockOffset(id);
    if block < 0 || block >= |files| || offset < 0 || offset > |files[block]| then None else
    match ReadMessage(files[block][offset..])
    case None => None
    case Some(m) =>
      match ReadMessage(files[block][offset + m.size..])
      case Some(next) => Some(next.msg)
      case None =>
        if block + 1 >= |files| || |files[block + 1]| < HEADER_SIZE then None else
        match ReadMessage(files[block + 1][HEADER_SIZE..])
        case None => None
        case Some(next) => Some(next.msg)
  }

  /** The count the message after id stands for: the records after it, when it is the user's record of id. */
  function CountFrom(next: Option<Message>, id: int, u: UserID, n: int): (r: int) {
    if next.None? then 0 else
    match OfflineOf(next.value)
    case None => 0
    case Some(off) =>
      if off.msgid == id && UserID(off.appid, off.receiver) == u && off.seqId <= n then n - off.seqId else 0
  }

  lemma ReadNextEntry(files: seq<seq<Byte>>, blocks: seq<seq<Message>>, i: nat)
    requires BlocksOk(blocks) && Renders(files, blocks) && i < |LogOf(blocks)|
    ensures ReadNext(files, LogOf(blocks)[i].id) == Following(LogOf(blocks), i)
  {
    hide Rec, EntriesFrom, LogOf, BlockOk, ReadNext;
    var log := LogOf(blocks);
    if i + 1 < |log| {
      var b, k := Successor(blocks, i);
      ReadPair(files, blocks, b, k);
      if k + 1 < |blocks[b]| { EntryInBlockMsg(blocks, b, k + 1); } else { EntryInBlockMsg(blocks, b + 1, 0); }
    } else {
      var k := LastOfBlock(blocks);
      ReadPair(files, blocks, |blocks| - 1, k);
    }
  }

  lemma EntryInBlockMsg(blocks: seq<seq<Message>>, b: nat, k: nat)
    requires b < |blocks| && k < |blocks[b]|
    ensures BlockEntries(b, blocks[b])[k].msg == blocks[b][k]
  {
    hide Rec, EntriesFrom, Recs;
    EntryAt(GetMsgId(b, HEADER_SIZE), blocks[b], k);
  }

  /** Reading twice from a record's place. */
  lemma ReadPair(files: seq<seq<Byte>>, blocks: seq<seq<Message>>, b: nat, k: nat)
    requires BlocksOk(blocks) && Renders(files, blocks) && b < |blocks| && k < |blocks[b]|
    requires b + 1 < |blocks| ==> blocks[b + 1] != []
    ensures ReadNext(files, BlockEntries(b, blocks[b])[k].id) ==
      if k + 1 < |blocks[b]| then Some(blocks[b][k + 1])
      else if b + 1 < |blocks| then Some(blocks[b + 1][0])
      else None
  {
    hide Rec, EntriesFrom, Recs, Storable, ReadMessage, FileHeader, BlockBytes;
    var ms := blocks[b];
    var e, rest := BlockEntries(b, ms)[k], Recs(ms[k + 1..]);
    EntryInBlock(blocks, b, k);
    ReadRec(e.msg, rest);
    var offset := GetBlockOffset(e.id);
    assert files[b] == BlockBytes(ms);
    assert files[b][offset + |Rec(e.msg)|..] == files[b][offset..][|Rec(e.msg)|..] == rest;
    assert BlockOk(ms);
    ReadFirst(ms[k + 1..]);
    if k + 1 == |ms| && b + 1 < |blocks| {
      assert files[b + 1] == BlockBytes(blocks[b + 1]) && BlockOk(blocks[b + 1]);
      AfterHeader(blocks[b + 1]);
      ReadFirst(blocks[b + 1]);
    }
  }

  lemma AfterHeader(ms: seq<Message>)
    ensures |BlockBytes(ms)| >= HEADER_SIZE && BlockBytes(ms)[HEADER_SIZE..] == Recs(ms)
  {
    hide Recs;
  }

  lemma ReadFirst(ms: seq<Message>)
    requires forall m :: m in ms ==> Storable(m)
    ensures ms == [] ==> ReadMessage(Recs(ms)) == None
    ensures ms != [] ==> ReadMessage(Recs(ms)) == Some(Received(ms[0], |Rec(ms[0])|))
  {
    hide Rec, Storable, ReadMessage;
    ReadNothing();
    if ms != [] { ReadRec(ms[0], Recs(ms[1..])); }
  }

  /** The entry after the i-th, if any. */
  function Following(log: seq<Entry>, i: nat): (r: Option<Message>)
    requires i < |log|
  {
    if i + 1 < |log| then Some(log[i + 1].msg) else None
  }

  lemma ReadPairs(files: seq<seq<Byte>>, blocks: seq<seq<Message>>, id: int)
    requires BlocksOk(blocks) && Renders(files, blocks)
    ensures forall i :: 0 <= i < |LogOf(blocks)| && LogOf(blocks)[i].id == id ==>
      (id > 0 && ReadNext(files, id) == Following(LogOf(blocks), i))
  {
    hide LogOf, ReadNext, BlocksOk, Renders, Rec;
    var log := LogOf(blocks);
    IdsFit(blocks);
    forall i | 0 <= i < |log| && log[i].id == id
      ensures id > 0 && ReadNext(files, id) == Following(log, i)
    {
      assert log[i] in log;
      ReadNextEntry(files, blocks, i);
    }
  }

  /** Where a queue element's message lies in the log: right before its record. */
  lemma {:induction false} ItemPlace(kind: Kind, log: seq<Entry>, u: UserID, k: nat) returns (i: nat)
    requires Behind(kind, log, u) && k < |Queue(kind, log, u)|
    ensures i + 1 < |log| && log[i].id == Queue(kind, log, u)[k].off.msgid && log[i + 1].id == Queue(kind, log, u)[k].id
    ensures IsRecord(kind, log[i + 1].msg) && Off(kind, log[i + 1].msg) == Queue(kind, log, u)[k].off
    ensures Owner(kind, log[i + 1].msg) == u
  {
    hide IndexOf;
    var n := |log| - 1;
    LinkedQueuePrefix(kind, log, n, u);
    if k < |Queue(kind, log[..n], u)| {
      i := ItemPlace(kind, log[..n], u, k);
    } else {
      assert BehindMessage(kind, log, n);
      i := n - 1;
    }
  }

  /** Some element of the queue points at this message. */
  predicate Holds(q: seq<Item>, id: int) { exists k :: 0 <= k < |q| && q[k].off.msgid == id }

  /** What is counted from an id that is no message of the user: nothing, unless it is a message of the group with
      the user's number. If that group is linked, the message's place in its queue is then taken for one in the
      user's. */
  ghost predicate OtherCount(log: seq<Entry>, u: UserID, id: int, count: int) {
    var q, g := Queue(Peer, log, u), Queue(Group, log, u);
    !Holds(q, id) ==>
      && (count != 0 ==> Holds(g, id))
      && (LinkedQueue(Group, log, u) ==>
            && (count > 0 <==> exists k :: 0 <= k < |g| && k + 1 < |q| && g[k].off.msgid == id)
            && (count != 0 ==> exists k :: 0 <= k < |g| && k + 1 < |q| && g[k].off.msgid == id && count == |q| - 1 - k))
  }

  lemma AllStorable(blocks: seq<seq<Message>>, i: nat)
    requires BlocksOk(blocks) && i < |LogOf(blocks)|
    ensures Storable(LogOf(blocks)[i].msg)
  {
    hide LogOf, EntriesFrom, Rec, BlockOk, Storable;
    var b, k := Locate(blocks, i);
    EntryInBlock(blocks, b, k);
  }

  /** A message with the body of a queue record is one. */
  lemma OfflineIsRecord(m: Message)
    requires Storable(m) && OfflineOf(m).Some?
    ensures IsRecord(Peer, m) || IsRecord(Group, m)
  {
    hide Encode;
  }

  /** A message of the group is followed by its record. */
  lemma GroupFollows(blocks: seq<seq<Message>>, u: UserID, i: nat, k: nat)
    requires BlocksOk(blocks) && LinkedQueue(Group, LogOf(blocks), u) && i < |LogOf(blocks)|
    requires var g := Queue(Group, LogOf(blocks), u); k < |g| && g[k].off.msgid == LogOf(blocks)[i].id
    ensures var next, off := Following(LogOf(blocks), i), Queue(Group, LogOf(blocks), u)[k].off;
      && next.Some? && OfflineOf(next.value) == Some(off)
      && UserID(off.appid, off.receiver) == u && off.seqId == k + 1
  {
    hide LogOf, BlocksOk, Queue, LinkedQueue, Rec;
    var log := LogOf(blocks);
    IdsFit(blocks);
    LinkedOne(Group, log, u);
    QueueStructure(Group, log, u);
    assert ItemOk(Queue(Group, log, u), k);
    var j := ItemPlace(Group, log, u, k);
    if j < i { IdsApart(log, j, i); } else if i < j { IdsApart(log, i, j); }
  }

  lemma IdsApart(log: seq<Entry>, i: nat, j: nat)
    requires Increasing(log) && i < j < |log|
    ensures log[i].id != log[j].id
  {
    hide Rec;
    assert log[i].id + |Rec(log[i].msg)| <= log[j].id;
  }

  /** An id that counts without being a message of the user is a message of that group. */
  lemma CountedGroup(blocks: seq<seq<Message>>, u: UserID, i: nat) returns (k: nat)
    requires BlocksOk(blocks) && i < |LogOf(blocks)|
    requires var log := LogOf(blocks); var q := Queue(Peer, log, u);
      !Holds(q, log[i].id) && CountFrom(Following(log, i), log[i].id, u, |q|) != 0
    ensures var log := LogOf(blocks); var q, g := Queue(Peer, log, u), Queue(Group, log, u);
      && k < |g| && g[k].off.msgid == log[i].id && g[k].off.seqId < |q|
      && CountFrom(Following(log, i), log[i].id, u, |q|) == |q| - g[k].off.seqId
  {
    hide LogOf, BlocksOk, Storable, Queue;
    var log := LogOf(blocks);
    var m := log[i + 1].msg;
    AllStorable(blocks, i + 1);
    OfflineIsRecord(m);
    if IsRecord(Peer, m) {
      k := RecordIsItem(Peer, log, i + 1);
      assert false;
    }
    k := RecordIsItem(Group, log, i + 1);
  }

  lemma OtherCounts(blocks: seq<seq<Message>>, u: UserID, i: nat)
    requires BlocksOk(blocks) && i < |LogOf(blocks)|
    ensures var log := LogOf(blocks);
      OtherCount(log, u, log[i].id, CountFrom(Following(log, i), log[i].id, u, |Queue(Peer, log, u)|))
  {
    hide LogOf, BlocksOk, Queue, LinkedQueue;
    var log := LogOf(blocks);
    var q, g, id := Queue(Peer, log, u), Queue(Group, log, u), log[i].id;
    if !Holds(q, id) {
      if CountFrom(Following(log, i), id, u, |q|) != 0 {
        var k := CountedGroup(blocks, u, i);
        if LinkedQueue(Group, log, u) {
          IdsFit(blocks);
          QueueStructure(Group, log, u);
          assert ItemOk(g, k);
        }
      }
      forall k | LinkedQueue(Group, log, u) && 0 <= k < |g| && k + 1 < |q| && g[k].off.msgid == id
        ensures CountFrom(Following(log, i), id, u, |q|) > 0
      {
        GroupFollows(blocks, u, i, k);
      }
    }
  }

  /** So the number of a group can make one of its messages count for a user. */
  lemma NewCountMisleads(blocks: seq<seq<Message>>, u: UserID) returns (i: nat)
    requires BlocksOk(blocks) && LinkedQueue(Group, LogOf(blocks), u)
    requires |Queue(Peer, LogOf(blocks), u)| > 1 && |Queue(Group, LogOf(blocks), u)| > 0
    ensures var log := LogOf(blocks); var q, g := Queue(Peer, log, u), Queue(Group, log, u);
      && i < |log| && log[i].id == g[0].off.msgid && CountFrom(Following(log, i), log[i].id, u, |q|) == |q| - 1
  {
    hide LogOf, BlocksOk, Queue, LinkedQueue;
    LinkedOne(Group, LogOf(blocks), u);
    i := ItemPlace(Group, LogOf(blocks), u, 0);
    GroupFollows(blocks, u, i, 0);
  }

  /** Counting from a message's id gives the number of messages after it in the user's queue. */
  lemma NewCounts(files: seq<seq<Byte>>, blocks: seq<seq<Message>>, u: UserID, id: int)
    requires BlocksOk(blocks) && Renders(files, blocks) && LinkedQueue(Peer, LogOf(blocks), u)
    ensures var q := Queue(Peer, LogOf(blocks), u);
      forall k :: 0 <= k < |q| && q[k].off.msgid == id ==>
        (id > 0 && CountFrom(ReadNext(files, id), id, u, |q|) == |q| - 1 - k)
  {
    hide LogOf, BlocksOk, Queue, ReadNext, Renders, LinkedQueue;
    var log, q := LogOf(blocks), Queue(Peer, LogOf(blocks), u);
    IdsFit(blocks);
    LinkedOne(Peer, log, u);
    QueueStructure(Peer, log, u);
    ReadPairs(files, blocks, id);
    forall k | 0 <= k < |q| && q[k].off.msgid == id
      ensures id > 0 && CountFrom(ReadNext(files, id), id, u, |q|) == |q| - 1 - k
    {
      var i := ItemPlace(Peer, log, u, k);
      assert log[i] in log && ItemOk(q, k);
      assert ReadNext(files, id) == Following(log, i);
    }
  }
}
