/** Queues of large groups, as in ims/group_storage.go. */
module GroupStorages {
  import opened Bytes
  import opened Protocol
  import opened StorageFiles
  import opened Queues
  import opened Paging
  import opened Answers
  import opened Recovery
  import opened Saving
  import opened PeerStorages

  /** A group message sent before the member joined. */
  predicate BeforeJoin(m: Message, joined: int) {
    m.cmd == MSG_GROUP_IM && m.body.IM? && m.body.timestamp < joined
  }

  /** How many of the group's messages a member who joined then does not get: all up to the last early one. */
  function Joined(q: seq<Item>, joined: int): (n: nat)
    ensures n <= |q|
  {
    if q == [] then 0 else if BeforeJoin(q[|q| - 1].body, joined) then |q| else Joined(q[..|q| - 1], joined)
  }

  function Deliveries(q: seq<Item>): (r: seq<Delivery>)
    ensures |r| == |q|
  {
    if q == [] then [] else Deliveries(q[..|q| - 1]) + [DeliveryOf(q[|q| - 1])]
  }

  /** The messages above a key; a first request, with key 0, does not reach back before the member joined. */
  function GroupStart(q: seq<Item>, key: int, joined: int): (n: nat)
    ensures n <= |q|
  {
    if key == 0 && Joined(q, joined) > Below(q, key) then Joined(q, joined) else Below(q, key)
  }

  class GroupStorage {
    const f: StorageFile
    var index: Index

    constructor (file: StorageFile)
      ensures f == file && index == map[]
    {
      f := file;
      index := map[];
    }

    /** What holds of every store, also after a restart that has not recovered all queues: the last ids that the
        index knows are ids of group records. */
    ghost predicate Sane()
      reads this, f
    {
      f.Valid() && SaneIndex(Group, index, f.Log()) && 0 <= f.lastId <= LastRecordId(f.Log())
    }

    /** One group is right, whatever the others are like. */
    ghost predicate Right(u: UserID)
      reads this, f
    {
      IsRight(Group, index, f.Log(), u)
    }

    /** These elements of a group's queue can be reached from its last id, and no others. */
    ghost predicate Chain(u: UserID, w: seq<Item>)
      reads this, f
    {
      IsChain(Group, index, f.Log(), u, w)
    }

    /** They are the whole queue, even if that is misnumbered. */
    ghost predicate Known(u: UserID)
      reads this, f
    {
      IsKnown(Group, index, f.Log(), u)
    }

    /** All groups are right: their records are linked, and the index is what replaying the whole log gives. */
    ghost predicate Valid()
      reads this, f
    {
      Sane() && Linked(Group, f.Log()) && index == Replay(Group, map[], f.Log())
    }

    ghost function Messages(appid: Int64, gid: Int64): (r: seq<Item>)
      reads f
    {
      Queue(Group, f.Log(), UserID(appid, gid))
    }

    function GetGroupIndex(appid: Int64, gid: Int64): (r: UserIndex)
      reads this
    {
      Get(index, UserID(appid, gid))
    }

    method SetGroupIndex(appid: Int64, gid: Int64, gi: UserIndex)
      modifies `index, f`lastId
      ensures index == old(index)[UserID(appid, gid) := gi]
      ensures f.lastId == if gi.lastId > old(f.lastId) then gi.lastId else old(f.lastId)
    {
      index := index[UserID(appid, gid) := gi];
      if gi.lastId > f.lastId {
        f.lastId := gi.lastId;
      }
    }

    lemma ValidIsKnown(u: UserID)
      requires Valid()
      ensures Right(u) && Known(u)
    {
      hide LogOf, Queue, Linked, LinkedQueue, Replay, SaneIndex, IsKnown, BlocksOk;
      LogIncreasing(f.blocks);
      LinkedOne(Group, f.Log(), u);
      CountedIff(Group, index, f.Log(), u);
      RightIsKnown(Group, index, f.Log(), u);
    }

    /** What can be reached can be read. */
    lemma ChainLoads(u: UserID, w: seq<Item>)
      requires f.Valid() && Chain(u, w)
      ensures ThreadOk(w) && (forall item :: item in w ==> Loads(f.files, item))
      ensures Get(index, u).lastId == IdBefore(w, |w|)
    {
      hide LogOf, Queue, BlocksOk, Loads, Behind, ThreadOk;
      QueueLoads(Group, f.files, f.blocks, |f.Log()|, u);
      assert f.Log()[..|f.Log()|] == f.Log();
    }

    /** Appends the message and its group record and moves the group's index on. Right groups stay right, known ones
        known, and what can be reached of any group grows by what is saved for it. */
    method SaveGroupMessage(appid: Int64, gid: Int64, deviceId: Int64, msg: Message)
      returns (msgid: int, prevMsgid: int)
      requires Sane() && Storable(msg) && |f.files| < MAX_BLOCKS - 1
      modifies this, f
      ensures Sane() && 0 < msgid < MAX_ID
      ensures var i, u := old(GetGroupIndex(appid, gid)), UserID(appid, gid);
        var body, rec := Entry(msgid, msg),
          Entry(f.lastId, RecordOf(Group, u, i, msgid, deviceId, IsGroupMessage(msg)));
        && prevMsgid == i.lastMsgid
        && f.Log() == old(f.Log()) + [body, rec] && f.ewt == old(f.ewt) + [body, rec]
        && index == old(index)[u := Step(i, rec.id, msgid, true)]
        && (!IsQueueCommand(msg.cmd) ==>
              forall v, w :: old(Chain(v, w)) ==> Chain(v, w + NewItem(Group, body, rec, u, v)))
      ensures GroupSavedAs(old(f.Log()), f.Log(), old(GetGroupIndex(appid, gid)), GetGroupIndex(appid, gid), appid, gid,
                      deviceId, msg, msgid, f.lastId)
      ensures !IsQueueCommand(msg.cmd) && old(Valid()) ==> Valid()
      ensures !IsQueueCommand(msg.cmd) ==>
        forall v :: (old(Right(v)) ==> Right(v)) && (old(Known(v)) ==> Known(v))
      ensures !IsQueueCommand(msg.cmd) ==> Replay(Peer, map[], f.Log()) == old(Replay(Peer, map[], f.Log()))
      ensures !IsQueueCommand(msg.cmd) && old(Linked(Peer, f.Log())) ==> Linked(Peer, f.Log())
      ensures f.lastId == LastRecordId(f.Log())
      ensures f.lastId > old(f.lastId) && f.lastSavedId == old(f.lastSavedId) && |f.files| <= old(|f.files|) + 2
    {
      hide LogOf, Replay, BlocksOk, Storable, Append, NextId, Rec, RecordOf, LastRecordId, Linked, Renders, SaneIndex,
        IsRight, IsKnown, IsChain, NewItem, GroupSavedAs, Written;
      ghost var log, u, was := f.Log(), UserID(appid, gid), index;
      IdsFit(f.blocks);
      msgid := f.SaveMessage(msg);
      SavedIdFits(f.blocks, log, Entry(msgid, msg));

      var gi := GetGroupIndex(appid, gid);
      var lastId, lastBatchId, lastSeqId := gi.lastId, gi.lastBatchId, gi.lastSeqId;
      var off := Offline(appid, gid, msgid, deviceId, ToInt64(lastSeqId + 1), ToInt64(lastId), 0, ToInt64(lastBatchId));
      var m := Message(MSG_GROUP_OFFLINE, 0, 0, 0, Offline4(off));
      NewRecord(Group, index, log, u, msgid, deviceId, IsGroupMessage(msg));
      RecordStorable(Group, u, gi, msgid, deviceId, IsGroupMessage(msg));
      lastId := f.SaveMessage(m);
      lastSeqId := lastSeqId + 1;
      if lastSeqId % BATCH_SIZE == 0 {
        lastBatchId := lastId;
      }
      ghost var body, rec := Entry(msgid, msg), Entry(lastId, m);
      assert f.Log() == log + [body, rec];
      Saved(Group, f.blocks, log, body, rec);
      LogIncreasing(f.blocks);
      SetGroupIndex(appid, gid, UserIndex(msgid, lastId, 0, lastBatchId, lastSeqId));
      SaneSaved(Group, was, log, body, rec, u);
      if !IsQueueCommand(msg.cmd) {
        QueueSaved(Group, was, log, body, rec, u, deviceId);
        if old(Valid()) { AllSaved(Group, log, body, rec, u, deviceId); }
      }
      GroupSaveStores(log, body, rec, u, gi, deviceId);
      prevMsgid := gi.lastMsgid;
    }

    /** The loop of `LoadGroupHistoryMessages`: walks the links down to the key, the join or the limit. */
    method Collect(ghost q: seq<Item>, start: int, msgid: int, ts: int, limit: int)
      returns (c: seq<Delivery>, lastMsgid: int)
      requires f.Valid() && ThreadOk(q) && (forall item :: item in q ==> Loads(f.files, item))
      requires start == IdBefore(q, |q|)
      ensures c == Reverse(Newest(Deliveries(q[GroupStart(q, msgid, ts)..]), if limit < 1 then 1 else limit))
      ensures lastMsgid == if q == [] then 0 else q[|q| - 1].off.msgid
    {
      hide LogOf, BlocksOk, Loads, LoadFrom, Renders, ThreadOk, BeforeJoin, Deliveries, Reverse, GroupStart, Newest;
      ghost var most := if limit < 1 then 1 else limit;
      c, lastMsgid := [], 0;
      var lastId := start;
      ghost var k: nat := |q|;
      assert q[k..] == [] && q[..k] == q;
      NoDeliveries();
      GroupItem(f.files, q, k - 1);
      while lastId > 0
        invariant k <= |q| && lastId == IdBefore(q, k) >= 0
        invariant k == |q| ==> lastMsgid == 0
        invariant k < |q| ==> lastMsgid == q[|q| - 1].off.msgid > 0
        invariant c == Reverse(Deliveries(q[k..])) && |c| < most
        invariant GroupStart(q, msgid, ts) == GroupStart(q[..k], msgid, ts)
        decreases k
      {
        GroupItem(f.files, q, k - 1);
        StartAt(q, k, msgid, ts);
        var m := f.LoadMessage(lastId);
        if m.None? {
          break;
        }
        var found := OfflineOf(m.value);
        if found.None? {
          break;
        }
        var off := found.value;
        if lastMsgid == 0 {
          lastMsgid := off.msgid;
        }
        if off.msgid == 0 || off.msgid <= msgid {
          break;
        }
        m := f.LoadMessage(off.msgid);
        if m.None? || (msgid == 0 && BeforeJoin(m.value, ts)) {
          break;
        }
        k := k - 1;
        DeliveriesStep(q, k);
        c := c + [Delivery(off.msgid, off.deviceId, m.value)];
        lastId := off.prevMsgid;
        if |c| >= limit {
          break;
        }
      }
      if k == 0 { NothingBelow(q, msgid, ts); } else { GroupItem(f.files, q, k - 1); }
      GroupEnd(q, k, GroupStart(q, msgid, ts), most);
    }

    /** `LoadGroupHistoryMessages`: of the messages that can be reached, the newest above the key, newest first; at
        least one of them even when the limit is not positive. Of a known group, whether or not it is misnumbered,
        these are all messages. */
    method LoadGroupHistoryMessages(appid: Int64, gid: Int64, msgid: int, ts: int, limit: int, ghost w: seq<Item>)
      returns (c: seq<Delivery>, lastMsgid: int)
      requires f.Valid() && Chain(UserID(appid, gid), w)
      ensures c == Reverse(Newest(Deliveries(w[GroupStart(w, msgid, ts)..]), if limit < 1 then 1 else limit))
      ensures lastMsgid == if w == [] then 0 else w[|w| - 1].off.msgid
      ensures exists from :: 0 <= from <= |w| && GroupAnswer(w, msgid, ts, limit, from, c)
    {
      hide LogOf, Queue, Loads, LoadFrom, ThreadOk, Deliveries, Reverse, GroupStart, Newest, IsChain, GroupAnswer;
      ChainLoads(UserID(appid, gid), w);
      GroupAnswerIs(w, msgid, ts, limit);
      c, lastMsgid := Collect(w, GetGroupIndex(appid, gid).lastId, msgid, ts, limit);
    }

    /** `readGroupIndex`: takes up an index file, whether or not it is right. */
    method ReadGroupIndex(file: seq<Byte>, ghost saved: Index, ghost order: seq<UserID>, ghost log: seq<Entry>)
      requires index == map[] && 0 <= f.lastId && Increasing(log) && (forall e :: e in log ==> e.id < MAX_ID)
      requires SaneIndex(Group, saved, log) && Lists(order, saved) && file == IndexBytes(Group, saved, order)
      modifies this, f`lastId
      ensures index == Narrowed(Group, saved) && f.lastId == Max(old(f.lastId), MaxLastId(0, saved, order))
    {
      var r := ReadSaved(Group, f.lastId, file, saved, order, log);
      index, f.lastId := r.index, r.lastId;
    }

    /** `createGroupIndex` */
    method CreateGroupIndex()
      requires f.Valid() && index == map[] && 0 <= f.lastId
      modifies this, f`lastId
      ensures f.Valid() && index == Replay(Group, map[], f.Log())
      ensures f.lastId == Max(old(f.lastId), LastIdOf(Group, f.Log()))
    {
      var r := RebuildAll(Group, Recovered(index, f.lastId), f.files, f.blocks);
      index, f.lastId := r.index, r.lastId;
    }

    /** `repairGroupIndex`: like the repair of peers, but it executes the record at the last id again. */
    method RepairGroupIndex()
      requires f.Valid() && (f.lastId == 0 || PlaceOf(f.Log(), f.lastId) < |f.Log()|)
      modifies this, f`lastId
      ensures f.Valid() && RepairPlace(f.blocks, old(f.lastId)) <= |f.Log()|
      ensures index == Replay(Group, old(index), f.Log()[RepairPlace(f.blocks, old(f.lastId))..])
      ensures f.lastId == Max(old(f.lastId), LastIdOf(Group, f.Log()[RepairPlace(f.blocks, old(f.lastId))..]))
    {
      hide Replay, LogOf, BlocksOk, Renders, LastIdOf, PlaceOf, StartsAt, ExecAll;
      RepairStarts(f.blocks, f.lastId);
      ghost var at := RepairPlace(f.blocks, f.lastId);
      LogIncreasing(f.blocks);
      SuffixIncreasing(f.Log(), at);
      ExecAllReplay(Group, false, Recovered(index, f.lastId), f.Log()[at..]);
      var r := ExecBlocks(Group, false, Recovered(index, f.lastId), f.files,
                          GetBlockNO(f.lastId), GetBlockOffset(f.lastId), f.blocks, at);
      index, f.lastId := r.index, r.lastId;
    }
  }

  /** What saving a message for a group writes and remembers, field by field. */
  ghost predicate GroupSavedAs(was: seq<Entry>, log: seq<Entry>, i: UserIndex, next: UserIndex, appid: Int64,
                               gid: Int64, deviceId: Int64, msg: Message, msgid: int, id: int)
  {
    && -0x8000_0000_0000_0000 <= msgid < 0x8000_0000_0000_0000
    && log == was + [Entry(msgid, msg),
         Entry(id, Message(MSG_GROUP_OFFLINE, 0, 0, 0,
           Offline4(Offline(appid, gid, msgid, deviceId, ToInt64(i.lastSeqId + 1), ToInt64(i.lastId), 0,
                            ToInt64(i.lastBatchId)))))]
    && next == UserIndex(msgid, id, 0, if (i.lastSeqId + 1) % 1000 == 0 then id else i.lastBatchId, i.lastSeqId + 1)
  }

  lemma GroupSaveStores(was: seq<Entry>, body: Entry, rec: Entry, u: UserID, i: UserIndex, deviceId: Int64)
    requires 0 < body.id < MAX_ID && i.lastPeerId == 0
    requires rec.msg == RecordOf(Group, u, i, body.id, deviceId, IsGroupMessage(body.msg))
    ensures GroupSavedAs(was, was + [body, rec], i, Step(i, rec.id, body.id, true), u.appid, u.uid, deviceId, body.msg,
                         body.id, rec.id)
  {
  }

  // ---------- a request, message by message ----------

  /** The messages from `from` on, newest first: as many as the limit allows, at least one; none is at or below the key
      and, on a first request, none is a group message from before the member joined. They reach back as far as that. */
  predicate GroupAnswer(w: seq<Item>, key: int, joined: int, limit: int, from: nat, c: seq<Delivery>)
    requires from <= |w|
  {
    && |c| == |w| - from && |c| <= (if limit < 1 then 1 else limit)
    && (forall j :: 0 <= j < |c| ==>
          var item := w[|w| - 1 - j];
          c[j].msgid == item.off.msgid && c[j].deviceId == item.off.deviceId && c[j].msg == item.body)
    && (forall k :: from <= k < |w| ==> !StopsAt(w[k], key, joined))
    && (from == 0 || |c| == (if limit < 1 then 1 else limit) || StopsAt(w[from - 1], key, joined))
  }

  predicate StopsAt(item: Item, key: int, joined: int) {
    || item.off.msgid <= key
    || (key == 0 && item.body.cmd == MSG_GROUP_IM && item.body.body.IM? && item.body.body.timestamp < joined)
  }

  lemma {:induction false} GroupStartIs(w: seq<Item>, key: int, joined: int)
    ensures var s := GroupStart(w, key, joined);
      (forall k :: s <= k < |w| ==> !StopsAt(w[k], key, joined)) && (s > 0 ==> StopsAt(w[s - 1], key, joined))
  {
    hide GroupStart;
    if w == [] {
      NoStart(key, joined);
    } else {
      var n := |w| - 1;
      assert w[..|w|] == w;
      StartAt(w, |w|, key, joined);
      GroupStartIs(w[..n], key, joined);
      assert StopsAt(w[n], key, joined) <==> GroupStart(w, key, joined) == |w|;
      forall k | GroupStart(w, key, joined) <= k < n ensures !StopsAt(w[k], key, joined) { assert w[..n][k] == w[k]; }
    }
  }

  lemma NoStart(key: int, joined: int) ensures GroupStart([], key, joined) == 0 {}

  lemma {:induction false} DeliveriesAt(w: seq<Item>)
    ensures forall k :: 0 <= k < |w| ==> Deliveries(w)[k] == Delivery(w[k].off.msgid, w[k].off.deviceId, w[k].body)
  {
    if w != [] { DeliveriesAt(w[..|w| - 1]); }
  }

  lemma NewestDown(ds: seq<Delivery>, most: nat)
    requires 0 < most
    ensures var c := Reverse(Newest(ds, most));
      |c| == (if |ds| <= most then |ds| else most) && forall j :: 0 <= j < |c| ==> c[j] == ds[|ds| - 1 - j]
  {
    hide Reverse;
    ReverseAt(Newest(ds, most));
  }

  lemma GroupAnswerIs(w: seq<Item>, key: int, joined: int, limit: int)
    ensures var most := if limit < 1 then 1 else limit;
      var c := Reverse(Newest(Deliveries(w[GroupStart(w, key, joined)..]), most));
      0 <= |w| - |c| <= |w| && GroupAnswer(w, key, joined, limit, |w| - |c|, c)
  {
    hide GroupStart, Deliveries, Reverse, Newest, StopsAt;
    var s, most := GroupStart(w, key, joined), if limit < 1 then 1 else limit;
    var ds := Deliveries(w[s..]);
    GroupStartIs(w, key, joined);
    DeliveriesAt(w[s..]);
    NewestDown(ds, most);
    var c := Reverse(Newest(ds, most));
    forall j | 0 <= j < |c|
      ensures var item := w[|w| - 1 - j]; c[j] == Delivery(item.off.msgid, item.off.deviceId, item.body)
    {
      assert w[s..][|ds| - 1 - j] == w[|w| - 1 - j];
    }
  }

  lemma NoDeliveries() ensures Reverse(Deliveries([])) == [] {}

  lemma NothingBelow(q: seq<Item>, key: int, ts: int)
    requires GroupStart(q, key, ts) == GroupStart(q[..0], key, ts)
    ensures GroupStart(q, key, ts) == 0
  {
  }

  lemma GroupItem(files: seq<seq<Byte>>, q: seq<Item>, k: int)
    requires ThreadOk(q) && (forall item :: item in q ==> Loads(files, item)) && k < |q|
    ensures k < 0 ==> IdBefore(q, 0) == 0
    ensures k >= 0 ==> var r := LoadFrom(files, q[k].id);
      && r.Some? && r.value.body.Offline4? && r.value.body.off == q[k].off && q[k].id > 0
      && LoadFrom(files, q[k].off.msgid) == Some(q[k].body)
      && q[k].off.prevMsgid == IdBefore(q, k) >= 0 && 0 < q[k].off.msgid
  {
    hide LoadFrom;
    if k >= 0 { assert q[k] in q; }
  }

  lemma StartAt(q: seq<Item>, k: nat, key: int, ts: int)
    requires 0 < k <= |q|
    ensures GroupStart(q[..k], key, ts) ==
      if q[k - 1].off.msgid <= key || (key == 0 && BeforeJoin(q[k - 1].body, ts)) then k
      else GroupStart(q[..k - 1], key, ts)
  {
    hide BeforeJoin;
    assert q[..k][..k - 1] == q[..k - 1];
  }

  lemma DeliveriesStep(q: seq<Item>, k: nat)
    requires k < |q|
    ensures Reverse(Deliveries(q[k..])) == Reverse(Deliveries(q[k + 1..])) + [DeliveryOf(q[k])]
  {
    assert q[k..] == [q[k]] + q[k + 1..];
    DeliveriesConcat([q[k]], q[k + 1..]);
    assert Deliveries([q[k]]) == [DeliveryOf(q[k])] by {
      assert [q[k]][..0] == [];
      assert Deliveries([q[k]][..0]) == [];
    }
    ReverseAppend([DeliveryOf(q[k])], Deliveries(q[k + 1..]));
    ReverseOne([DeliveryOf(q[k])]);
  }

  lemma {:induction false} DeliveriesConcat(p: seq<Item>, q: seq<Item>)
    ensures Deliveries(p + q) == Deliveries(p) + Deliveries(q)
  {
    if q == [] {
      assert p + q == p;
    } else {
      var n, all := |q| - 1, p + q;
      assert all[..|all| - 1] == p + q[..n] && all[|all| - 1] == q[n];
      DeliveriesConcat(p, q[..n]);
    }
  }

  lemma GroupEnd(q: seq<Item>, k: nat, start: nat, most: nat)
    requires start <= k <= |q| && |Deliveries(q[k..])| <= most && 0 < most
    requires start == k || |Deliveries(q[k..])| == most
    ensures Deliveries(q[k..]) == Newest(Deliveries(q[start..]), most)
  {
    assert q[start..] == q[start..k] + q[k..];
    DeliveriesConcat(q[start..k], q[k..]);
  }
}
