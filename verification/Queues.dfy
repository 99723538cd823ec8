/** The linked message queues threaded through the log: one per user, one per group. */
module Queues {
  import opened Bytes
  import opened Protocol
  import opened StorageFiles

  const BATCH_SIZE := 1000

  /** Users' queues hold peer and group messages; a large group has a queue of its own. */
  datatype Kind = Peer | Group

  /** A user of an application, or a group of one. */
  datatype UserID = UserID(appid: Int64, uid: Int64)

  /** What the server remembers of a queue. A group's index has no last_peer_id; here it stays 0. */
  datatype UserIndex = UserIndex(lastMsgid: int, lastId: int, lastPeerId: int, lastBatchId: int, lastSeqId: int)

  const EMPTY_INDEX := UserIndex(0, 0, 0, 0, 0)

  type Index = map<UserID, UserIndex>

  /** A queue element: its record and the message the record points at. */
  datatype Item = Item(id: int, off: Offline, inGroup: bool, body: Message)

  predicate HasGroupFlag(flag: int) { flag / MESSAGE_FLAG_GROUP % 2 == 1 }

  /** `isGroupMessage` */
  predicate IsGroupMessage(m: Message) { m.cmd == MSG_GROUP_IM || HasGroupFlag(m.flag) }

  predicate IsRecord(kind: Kind, m: Message) {
    match kind
    case Peer => (m.cmd == MSG_OFFLINE_V4 && m.body.Offline4?) || (m.cmd == MSG_OFFLINE_V3 && m.body.Offline3?)
    case Group => m.cmd == MSG_GROUP_OFFLINE && m.body.Offline4?
  }

  /** A message that replay would take for a queue record of either kind. */
  predicate IsQueueCommand(cmd: int) {
    cmd == MSG_OFFLINE_V4 || cmd == MSG_OFFLINE_V3 || cmd == MSG_GROUP_OFFLINE
  }

  function Off(kind: Kind, m: Message): (r: Offline) requires IsRecord(kind, m) { m.body.off }

  function Owner(kind: Kind, m: Message): (r: UserID)
    requires IsRecord(kind, m)
  {
    UserID(m.body.off.appid, m.body.off.receiver)
  }

  predicate InGroup(kind: Kind, m: Message) { kind == Group || HasGroupFlag(m.flag) }

  function Get(index: Index, u: UserID): (r: UserIndex) { if u in index then index[u] else EMPTY_INDEX }

  /** A queue's index after one more record. */
  function Step(i: UserIndex, id: int, msgid: int, inGroup: bool): (r: UserIndex) {
    UserIndex(msgid, id, if inGroup then i.lastPeerId else id,
              if (i.lastSeqId + 1) % BATCH_SIZE == 0 then id else i.lastBatchId, i.lastSeqId + 1)
  }

  /** `execMessage`: the effect of one log entry on the in-memory index. */
  function Exec(kind: Kind, index: Index, e: Entry): (r: Index) {
    if !IsRecord(kind, e.msg) then index else
    var u := Owner(kind, e.msg);
    index[u := Step(Get(index, u), e.id, Off(kind, e.msg).msgid, InGroup(kind, e.msg))]
  }

  /** What executing an entry does, by the command of its message: the record of a user's message moves that user's
      index on, the record of a group's message that group's, and nothing else changes either. */
  lemma ExecIs(index: Index, e: Entry)
    requires Fits(e.msg)
    ensures e.msg.cmd in {MSG_OFFLINE_V4, MSG_OFFLINE_V3} ==>
      && (e.msg.body.Offline4? || e.msg.body.Offline3?)
      && Exec(Peer, index, e) == Moved(index, e.msg.body.off, e.id, e.msg.flag / 4 % 2 == 1)
    ensures e.msg.cmd == MSG_GROUP_OFFLINE ==>
      e.msg.body.Offline4? && Exec(Group, index, e) == Moved(index, e.msg.body.off, e.id, true)
    ensures e.msg.cmd !in {MSG_OFFLINE_V4, MSG_OFFLINE_V3} ==> Exec(Peer, index, e) == index
    ensures e.msg.cmd != MSG_GROUP_OFFLINE ==> Exec(Group, index, e) == index
    ensures IsQueueCommand(e.msg.cmd) <==> e.msg.cmd in {247, 248, 249}
    ensures IsQueueCommand(e.msg.cmd) <==> Exec(Peer, index, e) != index || Exec(Group, index, e) != index
  {
    hide BodyFits;
    if IsQueueCommand(e.msg.cmd) {
      var kind := if e.msg.cmd == MSG_GROUP_OFFLINE then Group else Peer;
      var u := Owner(kind, e.msg);
      assert Get(Exec(kind, index, e), u).lastSeqId == Get(index, u).lastSeqId + 1;
    }
  }

  /** The index with one more record, field by field. */
  function Moved(index: Index, off: Offline, id: int, grouped: bool): (r: Index) {
    var u := UserID(off.appid, off.receiver);
    var i := if u in index then index[u] else UserIndex(0, 0, 0, 0, 0);
    index[u := UserIndex(off.msgid, id, if grouped then i.lastPeerId else id,
                         if (i.lastSeqId + 1) % 1000 == 0 then id else i.lastBatchId, i.lastSeqId + 1)]
  }

  /** Executing a stretch of the log in order. */
  function Replay(kind: Kind, index: Index, log: seq<Entry>): (r: Index) {
    if log == [] then index else Exec(kind, Replay(kind, index, log[..|log| - 1]), log[|log| - 1])
  }

  /** The records of one queue, oldest first. */
  function Queue(kind: Kind, log: seq<Entry>, u: UserID): (r: seq<Item>) {
    if log == [] then [] else
    var n := |log| - 1;
    var front, m := Queue(kind, log[..n], u), log[n].msg;
    if IsRecord(kind, m) && Owner(kind, m) == u
    then front + [Item(log[n].id, Off(kind, m), InGroup(kind, m), if n > 0 then log[n - 1].msg else m)]
    else front
  }

  /** The index a queue amounts to when it continues one that `i` describes. */
  function Advance(i: UserIndex, q: seq<Item>): (r: UserIndex) {
    if q == [] then i else
    var last := q[|q| - 1];
    Step(Advance(i, q[..|q| - 1]), last.id, last.off.msgid, last.inGroup)
  }

  function IndexOf(q: seq<Item>): (r: UserIndex) { Advance(EMPTY_INDEX, q) }

  // ---------- replay, one queue at a time ----------

  /** Replay treats the queues independently: each advances by its own records. */
  lemma {:induction false} ReplayQueue(kind: Kind, index: Index, log: seq<Entry>, u: UserID)
    ensures Get(Replay(kind, index, log), u) == Advance(Get(index, u), Queue(kind, log, u))
    ensures u in Replay(kind, index, log) <==> u in index || Queue(kind, log, u) != []
  {
    if log != [] {
      var init := log[..|log| - 1];
      ReplayQueue(kind, index, init, u);
      var front, q := Queue(kind, init, u), Queue(kind, log, u);
      if q != front {
        assert q[..|q| - 1] == front;
      }
    }
  }

  lemma {:induction false} ReplayConcat(kind: Kind, index: Index, front: seq<Entry>, back: seq<Entry>)
    ensures Replay(kind, index, front + back) == Replay(kind, Replay(kind, index, front), back)
  {
    hide Exec;
    if back == [] {
      assert front + back == front;
    } else {
      var n := |back| - 1;
      var all := front + back;
      assert all[..|all| - 1] == front + back[..n] && all[|all| - 1] == back[n];
      ReplayConcat(kind, index, front, back[..n]);
    }
  }

  /** Executing a stretch without records changes nothing. */
  lemma {:induction false} ReplayNoRecords(kind: Kind, index: Index, log: seq<Entry>)
    requires forall e :: e in log ==> !IsRecord(kind, e.msg)
    ensures Replay(kind, index, log) == index
  {
    if log != [] {
      var n := |log| - 1;
      ReplayNoRecords(kind, index, log[..n]);
      assert log[n] in log;
    }
  }

  lemma {:induction false} AdvanceSeq(i: UserIndex, q: seq<Item>)
    ensures Advance(i, q).lastSeqId == i.lastSeqId + |q|
  {
    if q != [] { AdvanceSeq(i, q[..|q| - 1]); }
  }

  lemma {:induction false} QueueConcat(kind: Kind, front: seq<Entry>, back: seq<Entry>, u: UserID)
    ensures |Queue(kind, front + back, u)| == |Queue(kind, front, u)| + |Queue(kind, back, u)|
    ensures Queue(kind, front, u) <= Queue(kind, front + back, u)
  {
    if back == [] {
      assert front + back == front;
    } else {
      var n := |back| - 1;
      var all := front + back;
      assert all[..|all| - 1] == front + back[..n] && all[|all| - 1] == back[n];
      QueueConcat(kind, front, back[..n], u);
    }
  }

  /** A stretch with a record lengthens the queue of the record's owner. */
  lemma {:induction false} QueueOfRecord(kind: Kind, log: seq<Entry>, i: nat)
    requires i < |log| && IsRecord(kind, log[i].msg)
    ensures |Queue(kind, log, Owner(kind, log[i].msg))| > 0
  {
    var n := |log| - 1;
    if i < n {
      QueueOfRecord(kind, log[..n], i);
    }
  }

  // ---------- closed form of the index ----------

  function LastPeer(q: seq<Item>): (r: int) {
    if q == [] then 0 else if !q[|q| - 1].inGroup then q[|q| - 1].id else LastPeer(q[..|q| - 1])
  }

  /** The record that closes the i-th batch of 1000; 0 before the first. */
  function BatchId(q: seq<Item>, i: nat): (r: int)
    requires BATCH_SIZE * i <= |q|
  {
    if i == 0 then 0 else q[BATCH_SIZE * i - 1].id
  }

  function IdBefore(q: seq<Item>, k: nat): (r: int) requires k <= |q| { if k == 0 then 0 else q[k - 1].id }

  /** The index in closed form. */
  lemma {:induction false} IndexClosed(q: seq<Item>)
    ensures var i := IndexOf(q);
      && i.lastSeqId == |q| && i.lastId == IdBefore(q, |q|)
      && i.lastMsgid == (if q == [] then 0 else q[|q| - 1].off.msgid)
      && i.lastPeerId == LastPeer(q) && i.lastBatchId == BatchId(q, |q| / BATCH_SIZE)
  {
    if q != [] {
      var n := |q| - 1;
      IndexClosed(q[..n]);
    }
  }

  // ---------- the links ----------

  /** The k-th record is numbered k + 1 and points at the record before it, at the last peer message before
      it, at the last full batch before it and at its message, which was saved after the record before it. */
  predicate ItemOk(q: seq<Item>, k: nat)
    requires k < |q|
  {
    var off := q[k].off;
    && off.seqId == k + 1
    && off.prevMsgid == IdBefore(q, k)
    && off.prevPeerMsgid == LastPeer(q[..k])
    && off.prevBatchMsgid == BatchId(q, k / BATCH_SIZE)
    && IdBefore(q, k) < off.msgid < q[k].id
    && !IsQueueCommand(q[k].body.cmd)
  }

  predicate QueueOk(q: seq<Item>) { forall k :: 0 <= k < |q| ==> ItemOk(q, k) }

  /** A record that directly follows its message. */
  predicate BehindMessage(kind: Kind, log: seq<Entry>, i: nat)
    requires i < |log| && IsRecord(kind, log[i].msg)
  {
    && log[i].msg.body.Offline4? && i > 0 && Off(kind, log[i].msg).msgid == log[i - 1].id
    && !IsQueueCommand(log[i - 1].msg.cmd)
  }

  /** A record written by this server that also continues the numbering and the links of its queue. */
  predicate RecordOk(kind: Kind, log: seq<Entry>, i: nat)
    requires i < |log|
  {
    IsRecord(kind, log[i].msg) ==>
      var off, index := Off(kind, log[i].msg), IndexOf(Queue(kind, log[..i], Owner(kind, log[i].msg)));
      && BehindMessage(kind, log, i)
      && (kind == Peer ==> HasGroupFlag(log[i].msg.flag) == IsGroupMessage(log[i - 1].msg))
      && off.seqId == index.lastSeqId + 1 && off.prevMsgid == index.lastId
      && off.prevPeerMsgid == index.lastPeerId && off.prevBatchMsgid == index.lastBatchId
  }

  predicate Linked(kind: Kind, log: seq<Entry>) { forall i :: 0 <= i < |log| ==> RecordOk(kind, log, i) }

  /** The same for the records of one queue alone. */
  predicate LinkedQueue(kind: Kind, log: seq<Entry>, u: UserID) {
    forall i :: 0 <= i < |log| && IsRecord(kind, log[i].msg) && Owner(kind, log[i].msg) == u ==> RecordOk(kind, log, i)
  }

  /** The records of one queue at least follow their messages, as all that this server writes do. */
  predicate Behind(kind: Kind, log: seq<Entry>, u: UserID) {
    forall i :: 0 <= i < |log| && IsRecord(kind, log[i].msg) && Owner(kind, log[i].msg) == u ==>
      BehindMessage(kind, log, i)
  }

  lemma LinkedOne(kind: Kind, log: seq<Entry>, u: UserID)
    ensures Linked(kind, log) ==> LinkedQueue(kind, log, u)
    ensures LinkedQueue(kind, log, u) ==> Behind(kind, log, u)
  {
    hide IsRecord, Queue;
  }

  predicate LinkedBoth(log: seq<Entry>) { Linked(Peer, log) && Linked(Group, log) }

  lemma LinkedPrefix(kind: Kind, log: seq<Entry>, n: nat)
    requires Linked(kind, log) && n <= |log|
    ensures Linked(kind, log[..n])
  {
    hide IsRecord, Queue;
    forall i | 0 <= i < n ensures RecordOk(kind, log[..n], i) {
      assert RecordOk(kind, log, i) && log[..n][..i] == log[..i];
    }
  }

  lemma LinkedQueuePrefix(kind: Kind, log: seq<Entry>, n: nat, u: UserID)
    requires n <= |log|
    ensures LinkedQueue(kind, log, u) ==> LinkedQueue(kind, log[..n], u)
    ensures Behind(kind, log, u) ==> Behind(kind, log[..n], u)
  {
    hide IsRecord, Queue;
    forall i | 0 <= i < n ensures RecordOk(kind, log, i) == RecordOk(kind, log[..n], i) {
      assert log[..n][..i] == log[..i];
    }
    forall i | 0 <= i < n && IsRecord(kind, log[i].msg)
      ensures BehindMessage(kind, log, i) == BehindMessage(kind, log[..n], i)
    {
      assert log[..n][..i] == log[..i];
    }
  }

  lemma LinkedAppend(kind: Kind, log: seq<Entry>, e: Entry)
    requires Linked(kind, log) && RecordOk(kind, log + [e], |log|)
    ensures Linked(kind, log + [e])
  {
    hide IsRecord, Queue;
    var all := log + [e];
    forall i | 0 <= i < |all| ensures RecordOk(kind, all, i) {
      if i < |log| {
        assert RecordOk(kind, log, i) && all[..i] == log[..i];
      }
    }
  }

  /** A queue's ids do not pass the end of the log, nor reach it when the log ends with another message. */
  lemma {:induction false} QueueIdsBound(kind: Kind, log: seq<Entry>, u: UserID)
    requires Increasing(log) && log != []
    ensures var last := log[|log| - 1];
      forall x :: x in Queue(kind, log, u) ==>
        HEADER_SIZE <= x.id <= last.id && (!IsRecord(kind, last.msg) ==> x.id < last.id)
  {
    hide Rec, IsRecord, Owner;
    var n := |log| - 1;
    assert HEADER_SIZE <= log[n].id;
    if n > 0 {
      QueueIdsBound(kind, log[..n], u);
      assert log[n - 1].id + |Rec(log[n - 1].msg)| <= log[n].id;
    } else {
      assert Queue(kind, log[..n], u) == [];
    }
  }

  /** Queue structure: in a log this server wrote, every queue is linked as it should be. */
  lemma {:induction false} QueueStructure(kind: Kind, log: seq<Entry>, u: UserID)
    requires LinkedQueue(kind, log, u) && Increasing(log)
    ensures QueueOk(Queue(kind, log, u))
  {
    hide Rec, IsRecord, Owner;
    if log != [] {
      var n := |log| - 1;
      var init, m := log[..n], log[n].msg;
      LinkedQueuePrefix(kind, log, n, u);
      QueueStructure(kind, init, u);
      var front, q := Queue(kind, init, u), Queue(kind, log, u);
      if IsRecord(kind, m) && Owner(kind, m) == u {
        assert RecordOk(kind, log, n);
        NewItemOk(kind, log, u);
        ItemsOkAppend(front, q[|front|]);
      }
    }
  }

  /** Each element points at the one before, which is older than its message. */
  predicate ThreadOk(q: seq<Item>) {
    forall k :: 0 <= k < |q| ==>
      q[k].off.prevMsgid == IdBefore(q, k) && 0 <= IdBefore(q, k) < q[k].off.msgid < q[k].id
  }

  /** A queue that is linked as it should be is such a chain. */
  lemma QueueIsThread(q: seq<Item>)
    requires QueueOk(q)
    ensures ThreadOk(q)
  {
    forall k | 0 <= k < |q| ensures ItemOk(q, k) && IdBefore(q, k) >= 0 {
      if k > 0 { IdsIncrease(q, k - 1, k - 1); }
    }
  }

  lemma ThreadAppend(q: seq<Item>, item: Item)
    requires ThreadOk(q) && item.off.prevMsgid == IdBefore(q, |q|) && 0 <= IdBefore(q, |q|) < item.off.msgid < item.id
    ensures ThreadOk(q + [item])
  {
    var all := q + [item];
    forall k | 0 <= k < |all|
      ensures all[k].off.prevMsgid == IdBefore(all, k) && 0 <= IdBefore(all, k) < all[k].off.msgid < all[k].id
    {
      if k < |q| { assert all[k] == q[k] && IdBefore(all, k) == IdBefore(q, k); }
    }
  }

  lemma NewItemOk(kind: Kind, log: seq<Entry>, u: UserID)
    requires Increasing(log) && log != [] && RecordOk(kind, log, |log| - 1)
    requires IsRecord(kind, log[|log| - 1].msg) && Owner(kind, log[|log| - 1].msg) == u
    ensures ItemOk(Queue(kind, log, u), |Queue(kind, log, u)| - 1)
  {
    hide Rec;
    var n := |log| - 1;
    var front, q := Queue(kind, log[..n], u), Queue(kind, log, u);
    assert q[..|q| - 1] == front;
    IndexClosed(front);
    QueueIdsBound(kind, log[..n], u);
    assert log[n - 1].id + |Rec(log[n - 1].msg)| <= log[n].id;
    assert HEADER_SIZE <= log[n - 1].id;
  }

  lemma ItemsOkAppend(q: seq<Item>, item: Item)
    requires QueueOk(q) && ItemOk(q + [item], |q|)
    ensures QueueOk(q + [item])
  {
    var all := q + [item];
    forall k | 0 <= k < |all| ensures ItemOk(all, k) {
      if k < |q| {
        assert ItemOk(q, k) && all[..k] == q[..k];
      }
    }
  }

  // ---------- the links as walks ----------

  datatype Link = ByMsg | ByPeer | ByBatch

  function Next(off: Offline, link: Link): (r: int) {
    match link
    case ByMsg => off.prevMsgid
    case ByPeer => off.prevPeerMsgid
    case ByBatch => off.prevBatchMsgid
  }

  /** The position of an id among others; their number for one that is not there. */
  function Search(ids: seq<int>, id: int): (k: nat)
    ensures k <= |ids| && (k < |ids| ==> ids[k] == id)
  {
    if ids == [] then 0 else if ids[0] == id then 0 else 1 + Search(ids[1..], id)
  }

  lemma {:induction false} SearchFirst(ids: seq<int>, k: nat)
    requires k < |ids| && forall j :: 0 <= j < k ==> ids[j] != ids[k]
    ensures Search(ids, ids[k]) == k
  {
    if k > 0 { SearchFirst(ids[1..], k - 1); }
  }

  lemma SearchNone(ids: seq<int>, id: int)
    requires id !in ids
    ensures Search(ids, id) == |ids|
  {
  }

  /** The position of a record in its queue; the queue's length for an id it does not have. */
  function Find(q: seq<Item>, id: int): (k: nat)
    ensures k <= |q| && (k < |q| ==> q[k].id == id)
  {
    Search(seq(|q|, i requires 0 <= i < |q| => q[i].id), id)
  }

  /** The ids met by following one kind of link until 0. */
  function Chase(q: seq<Item>, id: int, link: Link): (r: seq<int>)
    decreases Find(q, id)
  {
    var k := Find(q, id);
    if k == |q| then [] else
    var next := Next(q[k].off, link);
    if Find(q, next) < k then [id] + Chase(q, next, link) else [id]
  }

  function IdsDown(q: seq<Item>): (r: seq<int>) {
    if q == [] then [] else [q[|q| - 1].id] + IdsDown(q[..|q| - 1])
  }

  function PeerIdsDown(q: seq<Item>): (r: seq<int>) {
    if q == [] then [] else
    (if q[|q| - 1].inGroup then [] else [q[|q| - 1].id]) + PeerIdsDown(q[..|q| - 1])
  }

  function BatchIdsDown(q: seq<Item>, i: nat): (r: seq<int>)
    requires BATCH_SIZE * i <= |q|
  {
    if i == 0 then [] else [BatchId(q, i)] + BatchIdsDown(q, i - 1)
  }

  lemma FindItem(q: seq<Item>, k: nat)
    requires k < |q| && forall j :: 0 <= j < k ==> q[j].id != q[k].id
    ensures Find(q, q[k].id) == k
  {
    SearchFirst(seq(|q|, i requires 0 <= i < |q| => q[i].id), k);
  }

  lemma FindNone(q: seq<Item>, id: int)
    requires forall k :: 0 <= k < |q| ==> q[k].id != id
    ensures Find(q, id) == |q|
  {
    SearchNone(seq(|q|, i requires 0 <= i < |q| => q[i].id), id);
  }

  lemma {:induction false} IdsIncrease(q: seq<Item>, j: nat, k: nat)
    requires QueueOk(q) && j <= k < |q|
    ensures 0 < q[j].id && (j < k ==> q[j].id < q[k].id)
  {
    assert ItemOk(q, k);
    if j < k { IdsIncrease(q, j, k - 1); } else if k > 0 { IdsIncrease(q, k - 1, k - 1); }
  }

  lemma FindIds(q: seq<Item>)
    requires QueueOk(q)
    ensures Find(q, 0) == |q| && forall k :: 0 <= k < |q| ==> Find(q, q[k].id) == k
  {
    forall k | 0 <= k < |q| ensures Find(q, q[k].id) == k && q[k].id != 0 {
      forall j | 0 <= j <= k ensures j < k ==> q[j].id != q[k].id { IdsIncrease(q, j, k); }
      IdsIncrease(q, k, k);
      FindItem(q, k);
    }
    FindNone(q, 0);
  }

  /** From any record, the links visit exactly the older records of their sort, newest first, and end. */
  lemma {:induction false} ChaseMsgs(q: seq<Item>, k: nat)
    requires QueueOk(q) && k <= |q|
    ensures Chase(q, IdBefore(q, k), ByMsg) == IdsDown(q[..k])
  {
    FindIds(q);
    if k > 0 {
      ChaseMsgs(q, k - 1);
      assert ItemOk(q, k - 1) && q[..k][..k - 1] == q[..k - 1];
    }
  }

  lemma {:induction false} FindLastPeer(q: seq<Item>, k: nat)
    requires QueueOk(q) && k <= |q|
    ensures var f := Find(q, LastPeer(q[..k])); f < k || (f == |q| && PeerIdsDown(q[..k]) == [])
  {
    FindIds(q);
    if k > 0 {
      FindLastPeer(q, k - 1);
      assert q[..k][..k - 1] == q[..k - 1];
    }
  }

  lemma {:induction false} ChasePeers(q: seq<Item>, k: nat)
    requires QueueOk(q) && k <= |q|
    ensures Chase(q, LastPeer(q[..k]), ByPeer) == PeerIdsDown(q[..k])
  {
    FindIds(q);
    if k > 0 {
      ChasePeers(q, k - 1);
      FindLastPeer(q, k - 1);
      assert ItemOk(q, k - 1) && q[..k][..k - 1] == q[..k - 1];
    }
  }

  lemma {:induction false} ChaseBatches(q: seq<Item>, i: nat)
    requires QueueOk(q) && BATCH_SIZE * i <= |q|
    ensures Chase(q, BatchId(q, i), ByBatch) == BatchIdsDown(q, i)
  {
    hide QueueOk, Find;
    FindBatch(q, i);
    if i > 0 {
      ChaseBatches(q, i - 1);
      FindBatch(q, i - 1);
      BatchLink(q, i);
    }
  }

  lemma FindBatch(q: seq<Item>, i: nat)
    requires QueueOk(q) && BATCH_SIZE * i <= |q|
    ensures Find(q, BatchId(q, i)) == if i == 0 then |q| else BATCH_SIZE * i - 1
  {
    hide QueueOk;
    FindIds(q);
    if i > 0 { assert BatchId(q, i) == q[BATCH_SIZE * i - 1].id; }
  }

  lemma BatchLink(q: seq<Item>, i: nat)
    requires QueueOk(q) && i > 0 && BATCH_SIZE * i <= |q|
    ensures q[BATCH_SIZE * i - 1].off.prevBatchMsgid == BatchId(q, i - 1)
  {
    assert ItemOk(q, BATCH_SIZE * i - 1);
  }

  /** From the live index, the three walks visit all records, the peer records, and the batch ends. */
  lemma IndexWalks(kind: Kind, log: seq<Entry>, u: UserID)
    requires LinkedQueue(kind, log, u) && Increasing(log)
    ensures var q, i := Queue(kind, log, u), Get(Replay(kind, map[], log), u);
      && Chase(q, i.lastId, ByMsg) == IdsDown(q)
      && Chase(q, i.lastPeerId, ByPeer) == PeerIdsDown(q)
      && Chase(q, i.lastBatchId, ByBatch) == BatchIdsDown(q, |q| / BATCH_SIZE)
      && i.lastSeqId == |q|
  {
    hide IsRecord, Rec, Queue, Chase, Replay;
    var q := Queue(kind, log, u);
    QueueStructure(kind, log, u);
    ReplayQueue(kind, map[], log, u);
    IndexClosed(q);
    ChaseMsgs(q, |q|);
    ChasePeers(q, |q|);
    ChaseBatches(q, |q| / BATCH_SIZE);
    assert q[..|q|] == q;
  }

  // ---------- reading a queue from the block files ----------

  /** The record and its message can be read under their ids. */
  ghost predicate Loads(files: seq<seq<Byte>>, item: Item) {
    var r := LoadFrom(files, item.id);
    && r.Some? && r.value.body.Offline4? && r.value.body.off == item.off
    && LoadFrom(files, item.off.msgid) == Some(item.body)
  }

  lemma {:induction false} QueueLoads(kind: Kind, files: seq<seq<Byte>>, blocks: seq<seq<Message>>, n: nat, u: UserID)
    requires BlocksOk(blocks) && Renders(files, blocks)
    requires n <= |LogOf(blocks)| && Behind(kind, LogOf(blocks), u)
    ensures forall item :: item in Queue(kind, LogOf(blocks)[..n], u) ==> Loads(files, item)
  {
    hide LoadFrom, Rec, LogOf, BlocksOk, Renders, IndexOf, Storable;
    var log := LogOf(blocks);
    if n > 0 {
      QueueLoads(kind, files, blocks, n - 1, u);
      assert log[..n][..n - 1] == log[..n - 1];
      LoadEntry(files, blocks, n - 1);
      if n > 1 { LoadEntry(files, blocks, n - 2); }
      assert IsRecord(kind, log[n - 1].msg) && Owner(kind, log[n - 1].msg) == u ==> BehindMessage(kind, log, n - 1);
    }
  }

  // ---------- the entries one save adds ----------

  /** The record a save appends after its message. */
  function RecordOf(kind: Kind, u: UserID, i: UserIndex, msgid: int, deviceId: Int64, inGroup: bool): (r: Message) {
    Message(if kind == Peer then MSG_OFFLINE_V4 else MSG_GROUP_OFFLINE, 0, 0,
            if kind == Peer && inGroup then MESSAGE_FLAG_GROUP else 0,
            Offline4(Offline(u.appid, u.uid, ToInt64(msgid), deviceId, ToInt64(i.lastSeqId + 1),
                             ToInt64(i.lastId), ToInt64(i.lastPeerId), ToInt64(i.lastBatchId))))
  }

  const MAX_ID := 0x8000_0000_0000_0000

  predicate InRange(i: UserIndex) {
    && 0 <= i.lastMsgid < MAX_ID && 0 <= i.lastId < MAX_ID && 0 <= i.lastPeerId < MAX_ID && 0 <= i.lastBatchId < MAX_ID
    && 0 <= i.lastSeqId < MAX_ID - 1
  }

  /** A save keeps each queue of its kind linked, if the record continues the index of its own queue; and behind its
      messages in any case (SaveBehind). Unless the saved message is itself a queue record. */
  lemma SaveLinks(kind: Kind, log: seq<Entry>, body: Entry, rec: Entry, u: UserID, i: UserIndex, deviceId: Int64,
                  v: UserID)
    requires !IsQueueCommand(body.msg.cmd) && 0 <= body.id < MAX_ID
    requires rec.msg == RecordOf(kind, u, i, body.id, deviceId, IsGroupMessage(body.msg))
    ensures LinkedQueue(kind, log, v) && (v == u ==> i == IndexOf(Queue(kind, log, u)) && InRange(i)) ==>
      LinkedQueue(kind, log + [body, rec], v)
  {
    hide IndexOf, Queue, BehindMessage;
    var n, all := |log|, log + [body, rec];
    assert all[n] == body && all[n + 1] == rec && all[..n + 1] == log + [body];
    NoRecordInQueue(kind, log, body, u);
    if LinkedQueue(kind, log, v) && (v == u ==> i == IndexOf(Queue(kind, log, u)) && InRange(i)) {
      forall j | 0 <= j < |all| && IsRecord(kind, all[j].msg) && Owner(kind, all[j].msg) == v
        ensures RecordOk(kind, all, j)
      {
        if j < n { SameRecord(kind, log, all, j); } else { NewRecordOk(kind, log, body, rec, u, i, deviceId); }
      }
    }
  }

  lemma SaveBehind(kind: Kind, log: seq<Entry>, body: Entry, rec: Entry, u: UserID, i: UserIndex, deviceId: Int64,
                   v: UserID)
    requires !IsQueueCommand(body.msg.cmd) && 0 <= body.id < MAX_ID
    requires rec.msg == RecordOf(kind, u, i, body.id, deviceId, IsGroupMessage(body.msg))
    ensures Behind(kind, log, v) ==> Behind(kind, log + [body, rec], v)
  {
    hide IndexOf, Queue;
    var n, all := |log|, log + [body, rec];
    assert all[n] == body && all[n + 1] == rec;
    forall j | 0 <= j < n && IsRecord(kind, log[j].msg)
      ensures BehindMessage(kind, all, j) == BehindMessage(kind, log, j)
    {
      SameRecord(kind, log, all, j);
    }
  }

  /** A record is as good in a longer log. */
  lemma SameRecord(kind: Kind, log: seq<Entry>, all: seq<Entry>, j: nat)
    requires log <= all && j < |log| && IsRecord(kind, log[j].msg)
    ensures RecordOk(kind, all, j) == RecordOk(kind, log, j)
    ensures BehindMessage(kind, all, j) == BehindMessage(kind, log, j)
  {
    hide IndexOf, Queue;
    assert all[..j] == log[..j];
  }

  /** The record of an index and an id that fit an int64. */
  lemma RecordFields(kind: Kind, u: UserID, i: UserIndex, msgid: int, deviceId: Int64, inGroup: bool)
    requires 0 <= msgid < MAX_ID && InRange(i)
    ensures var m := RecordOf(kind, u, i, msgid, deviceId, inGroup);
      && IsRecord(kind, m) && Owner(kind, m) == u && m.body.Offline4?
      && var off := Off(kind, m);
         && off.msgid == msgid && off.seqId == i.lastSeqId + 1 && off.prevMsgid == i.lastId
         && off.prevPeerMsgid == i.lastPeerId && off.prevBatchMsgid == i.lastBatchId
         && (kind == Peer ==> HasGroupFlag(m.flag) == inGroup)
  {
  }

  lemma NoRecordUnless(kind: Kind, m: Message)
    requires !IsQueueCommand(m.cmd)
    ensures !IsRecord(kind, m)
  {
  }

  lemma NewRecordOk(kind: Kind, log: seq<Entry>, body: Entry, rec: Entry, u: UserID, i: UserIndex, deviceId: Int64)
    requires !IsQueueCommand(body.msg.cmd) && 0 <= body.id < MAX_ID
    requires rec.msg == RecordOf(kind, u, i, body.id, deviceId, IsGroupMessage(body.msg))
    requires i == IndexOf(Queue(kind, log, u)) && InRange(i)
    ensures RecordOk(kind, log + [body, rec], |log| + 1)
  {
    hide IndexOf, Queue, RecordOf, ToInt64, IsRecord, Owner, HasGroupFlag, IsGroupMessage;
    RecordFields(kind, u, i, body.id, deviceId, IsGroupMessage(body.msg));
    NoRecordUnless(kind, body.msg);
    var all := log + [body, rec];
    assert all[..|log| + 1] == log + [body];
    NoRecordInQueue(kind, log, body, u);
  }

  lemma SaveKeepsLinked(kind: Kind, log: seq<Entry>, body: Entry, rec: Entry, u: UserID, deviceId: Int64)
    requires Linked(kind, log) && !IsQueueCommand(body.msg.cmd) && 0 <= body.id < MAX_ID
    requires InRange(IndexOf(Queue(kind, log, u)))
    requires rec.msg == RecordOf(kind, u, IndexOf(Queue(kind, log, u)), body.id, deviceId, IsGroupMessage(body.msg))
    ensures Linked(kind, log + [body, rec])
  {
    hide IndexOf, Queue;
    var mid, all := log + [body], log + [body] + [rec];
    assert mid[..|log|] == log && all[..|mid|] == mid;
    assert all == log + [body, rec];
    NoRecordInQueue(kind, log, body, u);
    LinkedAppend(kind, log, body);
    LinkedAppend(kind, mid, rec);
  }

  /** A save of one kind does not touch the links of the other. */
  lemma OtherLinked(kind: Kind, log: seq<Entry>, body: Entry, rec: Entry)
    requires Linked(kind, log) && !IsRecord(kind, body.msg) && !IsRecord(kind, rec.msg)
    ensures Linked(kind, log + [body, rec])
  {
    hide IndexOf, Queue, IsRecord;
    var mid := log + [body];
    LinkedAppend(kind, log, body);
    LinkedAppend(kind, mid, rec);
    assert mid + [rec] == log + [body, rec];
  }

  lemma NoRecordInQueue(kind: Kind, log: seq<Entry>, e: Entry, u: UserID)
    requires !IsRecord(kind, e.msg)
    ensures Queue(kind, log + [e], u) == Queue(kind, log, u)
  {
    assert (log + [e])[..|log|] == log;
  }

  lemma SaveReplay(kind: Kind, index: Index, log: seq<Entry>, body: Entry, rec: Entry)
    ensures Replay(kind, index, log + [body, rec]) == Exec(kind, Exec(kind, Replay(kind, index, log), body), rec)
  {
    hide Exec;
    var mid, all := log + [body], log + [body, rec];
    assert mid[..|log|] == log && all[..|mid|] == mid;
  }

  /** A save lengthens its queue by one element and leaves the others alone. */
  lemma SaveQueue(kind: Kind, log: seq<Entry>, body: Entry, rec: Entry, v: UserID)
    requires IsRecord(kind, rec.msg) && !IsRecord(kind, body.msg)
    ensures Queue(kind, log + [body, rec], v) == Queue(kind, log, v) +
      if v == Owner(kind, rec.msg) then [Item(rec.id, Off(kind, rec.msg), InGroup(kind, rec.msg), body.msg)] else []
  {
    hide IsRecord, Owner, InGroup;
    var mid, all := log + [body], log + [body, rec];
    assert mid[..|log|] == log && all[..|mid|] == mid;
    NoRecordInQueue(kind, log, body, v);
  }

  /** Every record of the log is an element of its owner's queue. */
  lemma {:induction false} RecordIsItem(kind: Kind, log: seq<Entry>, i: nat) returns (k: nat)
    requires i < |log| && IsRecord(kind, log[i].msg)
    ensures var q := Queue(kind, log, Owner(kind, log[i].msg));
      k < |q| && q[k].id == log[i].id && q[k].off == Off(kind, log[i].msg)
  {
    hide IsRecord, Owner, InGroup;
    var n, u := |log| - 1, Owner(kind, log[i].msg);
    if i < n {
      k := RecordIsItem(kind, log[..n], i);
    } else {
      k := |Queue(kind, log[..n], u)|;
    }
  }

  /** Saving a message keeps the live index equal to what replaying the log gives, exactly when the message
      is not itself a record of that kind of queue. */
  lemma SaveReplayIff(kind: Kind, index: Index, log: seq<Entry>, body: Entry, rec: Entry)
    requires IsRecord(kind, rec.msg)
    ensures Replay(kind, index, log + [body, rec]) == Exec(kind, Replay(kind, index, log), rec)
      <==> !IsRecord(kind, body.msg)
  {
    SaveReplay(kind, index, log, body, rec);
    var was := Replay(kind, index, log);
    if IsRecord(kind, body.msg) {
      var v := Owner(kind, body.msg);
      assert Get(Exec(kind, Exec(kind, was, body), rec), v).lastSeqId > Get(Exec(kind, was, rec), v).lastSeqId;
    }
  }

  // ---------- ids stay within int64 ----------

  lemma {:induction false} LogSize(log: seq<Entry>)
    requires Increasing(log)
    ensures log != [] ==> |log| < log[|log| - 1].id
  {
    hide Rec;
    if log != [] {
      var n := |log| - 1;
      LogSize(log[..n]);
      assert HEADER_SIZE <= log[n].id;
      if n > 0 { assert log[n - 1].id + |Rec(log[n - 1].msg)| <= log[n].id; }
    }
  }

  lemma {:induction false} QueueSize(kind: Kind, log: seq<Entry>, u: UserID)
    ensures |Queue(kind, log, u)| <= |log|
  {
    hide IsRecord;
    if log != [] { QueueSize(kind, log[..|log| - 1], u); }
  }

  lemma {:induction false} LastPeerBound(q: seq<Item>, bound: int)
    requires 0 <= bound && forall x :: x in q ==> 0 <= x.id <= bound
    ensures 0 <= LastPeer(q) <= bound
  {
    if q != [] {
      assert q[|q| - 1] in q;
      LastPeerBound(q[..|q| - 1], bound);
    }
  }

  /** An index whose numbers an int64 can hold. */
  predicate FitsInt64(i: UserIndex) {
    && -MAX_ID <= i.lastMsgid < MAX_ID && -MAX_ID <= i.lastId < MAX_ID && -MAX_ID <= i.lastPeerId < MAX_ID
    && -MAX_ID <= i.lastBatchId < MAX_ID && -MAX_ID <= i.lastSeqId < MAX_ID
  }

  /** A replayed index fits, however the records are linked. */
  lemma IndexFits(kind: Kind, log: seq<Entry>, u: UserID)
    requires Increasing(log) && forall e :: e in log ==> e.id < MAX_ID
    ensures FitsInt64(IndexOf(Queue(kind, log, u))) && 0 <= IndexOf(Queue(kind, log, u)).lastId
  {
    hide IsRecord, Rec, Queue;
    var q := Queue(kind, log, u);
    IndexClosed(q);
    QueueSize(kind, log, u);
    LogSize(log);
    if log != [] {
      var last := log[|log| - 1];
      assert last in log;
      QueueIdsBound(kind, log, u);
      LastPeerBound(q, last.id);
      if q != [] {
        assert q[|q| - 1] in q;
        if |q| >= BATCH_SIZE { assert q[BATCH_SIZE * (|q| / BATCH_SIZE) - 1] in q; }
      }
    } else {
      assert q == [];
    }
  }

  lemma IndexInRange(kind: Kind, log: seq<Entry>, u: UserID)
    requires LinkedQueue(kind, log, u) && Increasing(log)
    requires forall e :: e in log ==> e.id < MAX_ID
    ensures InRange(IndexOf(Queue(kind, log, u)))
  {
    hide IsRecord, Rec, Queue;
    var q := Queue(kind, log, u);
    IndexClosed(q);
    QueueSize(kind, log, u);
    LogSize(log);
    if log != [] {
      var last := log[|log| - 1];
      assert last in log;
      QueueIdsBound(kind, log, u);
      LastPeerBound(q, last.id);
      QueueStructure(kind, log, u);
      if q != [] {
        assert ItemOk(q, |q| - 1);
        assert q[|q| - 1] in q;
        if |q| >= BATCH_SIZE { assert q[BATCH_SIZE * (|q| / BATCH_SIZE) - 1] in q; }
        if |q| > 1 { assert q[|q| - 2] in q; }
      }
    } else {
      assert q == [];
    }
  }

  /** The id of the last queue record of either kind; the value of `last_id`. */
  function LastRecordId(log: seq<Entry>): (r: int) {
    if log == [] then 0 else
    var e := log[|log| - 1];
    if IsRecord(Peer, e.msg) || IsRecord(Group, e.msg) then e.id else LastRecordId(log[..|log| - 1])
  }

  lemma {:induction false} LastRecordBound(log: seq<Entry>)
    requires Increasing(log)
    ensures LastRecordId(log) <= if log == [] then 0 else log[|log| - 1].id
    ensures 0 <= LastRecordId(log)
  {
    hide Rec, IsRecord;
    if log != [] {
      var n := |log| - 1;
      LastRecordBound(log[..n]);
      assert HEADER_SIZE <= log[n].id;
      if n > 0 { assert log[n - 1].id + |Rec(log[n - 1].msg)| <= log[n].id; }
    }
  }
}
