/** How a slave applies the master's messages: what the bytes and indexes become. */
module Replication {
  import opened Bytes
  import opened Protocol
  import opened StorageFiles
  import opened Queues

  /** The state of a replica that replication changes. */
  datatype Replica = Replica(files: seq<seq<Byte>>, peers: Index, groups: Index, lastId: int)

  /** What `SaveSyncMessage` writes: None when it skips the message. */
  function SyncFiles(files: seq<seq<Byte>>, e: Entry): (r: (seq<seq<Byte>>, bool))
    requires |files| > 0
    ensures |r.0| >= |files|
  {
    var n, o, last := GetBlockNO(e.id), GetBlockOffset(e.id), |files| - 1;
    if n < last || n - last > 1 then (files, false) else
    var grown := if n - last == 1 then files + [FileHeader()] else files;
    var file := grown[|grown| - 1];
    if o < |file| then (grown, false)
    else (grown[..|grown| - 1] + [file + Zeros(o - |file|) + Rec(e.msg)], true)
  }

  /** The same in terms of the files' bytes. A message is written exactly at or behind the end of the last file, or in
      the block after it behind the header: at its own offset, with zeros up to there, and with nothing else changed. */
  ghost predicate SyncWrites(was: seq<seq<Byte>>, e: Entry, files: seq<seq<Byte>>, written: bool)
    requires was != []
  {
    var last, n, o := |was| - 1, e.id / 134217728, e.id % 134217728;
    var opens := e.id >= 0 && n == last + 1;
    var front := if opens then FileHeader() else was[last];
    && (written <==> e.id >= 0 && n in {last, last + 1} && o >= |front|)
    && |files| == (if opens then last + 2 else last + 1) && files[..last] == was[..last]
    && (opens ==> files[last] == was[last])
    && var file := files[|files| - 1];
       if written then
         && |front| <= o == |file| - |Rec(e.msg)| && file[..|front|] == front
         && (forall i :: |front| <= i < o ==> file[i] == 0) && file[o..] == Rec(e.msg)
         && (Storable(e.msg) ==> LoadFrom(files, e.id) == Some(e.msg))
       else
         file == front
  }

  lemma SyncWritesIs(was: seq<seq<Byte>>, e: Entry)
    requires was != []
    ensures SyncWrites(was, e, SyncFiles(was, e).0, SyncFiles(was, e).1)
  {
    hide Rec, FileHeader, Storable, ReadMessage;
    var (files, written) := SyncFiles(was, e);
    if written {
      var o := GetBlockOffset(e.id);
      assert files[|files| - 1][o..] == Rec(e.msg) + [];
      if Storable(e.msg) { ReadRec(e.msg, []); }
    }
  }

  function SyncEntry(r: Replica, e: Entry): (next: Replica)
    requires |r.files| > 0
    ensures |next.files| >= |r.files|
  {
    var (files, written) := SyncFiles(r.files, e);
    if !written then r.(files := files)
    else Replica(files, Exec(Peer, r.peers, e), Exec(Group, r.groups, e),
                 if (IsRecord(Peer, e.msg) || IsRecord(Group, e.msg)) && e.id > r.lastId then e.id else r.lastId)
  }

  /** `SaveSyncMessageBatch`: the ids after the first are counted up by the sizes of the records. */
  function SyncBatch(r: Replica, id: int, msgs: seq<Message>): (next: Replica)
    requires |r.files| > 0
    ensures |next.files| >= |r.files|
    decreases msgs
  {
    if msgs == [] then r else SyncBatch(SyncEntry(r, Entry(id, msgs[0])), id + |Rec(msgs[0])|, msgs[1..])
  }

  /** The master's blocks cut after the j-th message of block b. */
  function Cut(blocks: seq<seq<Message>>, b: nat, j: nat): (r: seq<seq<Message>>)
    requires b < |blocks| && j <= |blocks[b]|
  {
    blocks[..b] + [blocks[b][..j]]
  }

  function Render(blocks: seq<seq<Message>>): (r: seq<seq<Byte>>) {
    seq(|blocks|, b requires 0 <= b < |blocks| => BlockBytes(blocks[b]))
  }

  /** The replica of the master's log up to a cut: its bytes, and the indexes replay gives. */
  function Image(blocks: seq<seq<Message>>, b: nat, j: nat): (r: Replica)
    requires b < |blocks| && j <= |blocks[b]|
    ensures |r.files| == b + 1
  {
    var cut := Cut(blocks, b, j);
    Replica(Render(cut), Replay(Peer, map[], LogOf(cut)), Replay(Group, map[], LogOf(cut)), LastRecordId(LogOf(cut)))
  }

  /** The id of the j-th message of block b. */
  function IdAt(blocks: seq<seq<Message>>, b: nat, j: nat): (r: int)
    requires b < |blocks| && j <= |blocks[b]|
  {
    GetMsgId(b, HEADER_SIZE + |Recs(blocks[b][..j])|)
  }

  lemma CutOk(blocks: seq<seq<Message>>, b: nat, j: nat)
    requires BlocksOk(blocks) && b < |blocks| && j <= |blocks[b]| && (b == 0 || j > 0)
    ensures BlocksOk(Cut(blocks, b, j))
    ensures |BlockBytes(blocks[b][..j])| <= BLOCK_SIZE
  {
    hide Rec, Recs, Storable;
    var cut, ms := Cut(blocks, b, j), blocks[b];
    assert ms == ms[..j] + ms[j..];
    RecsAppend(ms[..j], ms[j..]);
    assert BlockOk(ms);
    assert BlockOk(ms[..j]);
    forall c | 0 <= c < |cut| ensures BlockOk(cut[c]) && (c > 0 ==> cut[c] != []) {
      if c < b { assert cut[c] == blocks[c] && BlockOk(blocks[c]); }
    }
  }

  /** The log of a cut is the start of the log. */
  lemma CutPrefix(blocks: seq<seq<Message>>, b: nat, j: nat)
    requires b < |blocks| && j <= |blocks[b]|
    ensures LogOf(Cut(blocks, b, j)) <= LogOf(blocks)
  {
    hide EntriesFrom, LogOf;
    var ms := blocks[b];
    CutLog(blocks, b, j);
    assert ms == ms[..j] + ms[j..];
    EntriesAppend(GetMsgId(b, HEADER_SIZE), ms[..j], ms[j..]);
    LogPrefix(blocks, b);
    LogPrefix(blocks, b + 1);
  }

  lemma CutLog(blocks: seq<seq<Message>>, b: nat, j: nat)
    requires b < |blocks| && j <= |blocks[b]|
    ensures LogOf(Cut(blocks, b, j)) == LogOf(blocks[..b]) + BlockEntries(b, blocks[b][..j])
  {
    hide EntriesFrom;
    var cut := Cut(blocks, b, j);
    assert cut[..b] == blocks[..b];
    assert LogOf(cut) == LogOf(cut[..b]) + BlockEntries(b, cut[b]);
  }

  /** The log of an earlier cut is the start of that of a later one. */
  lemma CutsGrow(blocks: seq<seq<Message>>, p: Place, q: Place)
    requires IsPlace(blocks, p) && IsPlace(blocks, q) && (p.b < q.b || (p.b == q.b && p.j <= q.j))
    ensures LogOf(Cut(blocks, p.b, p.j)) <= LogOf(Cut(blocks, q.b, q.j))
  {
    hide LogOf;
    var later := Cut(blocks, q.b, q.j);
    CutPrefix(later, p.b, p.j);
    assert later[..p.b] == blocks[..p.b] && later[p.b][..p.j] == blocks[p.b][..p.j];
  }

  /** Appending the next message to the cut's log. */
  lemma NextInBlock(blocks: seq<seq<Message>>, b: nat, j: nat)
    requires BlocksOk(blocks) && b < |blocks| && j < |blocks[b]| && (b == 0 || j > 0)
    ensures LogOf(Cut(blocks, b, j + 1)) == LogOf(Cut(blocks, b, j)) + [Entry(IdAt(blocks, b, j), blocks[b][j])]
    ensures BlockBytes(blocks[b][..j + 1]) == BlockBytes(blocks[b][..j]) + Rec(blocks[b][j])
  {
    hide Rec, Recs, Storable, LogOf, EntriesFrom, BlockOk, FileHeader;
    CutOk(blocks, b, j);
    CutOk(blocks, b, j + 1);
    var cut, m := Cut(blocks, b, j), blocks[b][j];
    assert blocks[b][..j + 1] == blocks[b][..j] + [m];
    RecsAppend(blocks[b][..j], [m]);
    RecsOne(m);
    assert m in blocks[b] && BlockOk(blocks[b]);
    StorableIn(blocks[b], m);
    SameBlockLog(cut, m);
    assert cut[..b] + [cut[b] + [m]] == Cut(blocks, b, j + 1);
  }

  lemma StorableIn(ms: seq<Message>, m: Message)
    requires BlockOk(ms) && m in ms
    ensures Storable(m)
  {
  }

  lemma FirstOfBlock(blocks: seq<seq<Message>>, b: nat)
    requires BlocksOk(blocks) && b + 1 < |blocks| && (b == 0 || blocks[b] != [])
    ensures blocks[b + 1] != []
    ensures LogOf(Cut(blocks, b + 1, 1))
      == LogOf(Cut(blocks, b, |blocks[b]|)) + [Entry(GetMsgId(b + 1, HEADER_SIZE), blocks[b + 1][0])]
    ensures BlockBytes(blocks[b + 1][..1]) == FileHeader() + Rec(blocks[b + 1][0])
  {
    hide Rec, Recs, Storable, LogOf, EntriesFrom, BlockOk;
    CutOk(blocks, b, |blocks[b]|);
    var cut, m := Cut(blocks, b, |blocks[b]|), blocks[b + 1][0];
    assert BlockOk(blocks[b + 1]) && m in blocks[b + 1];
    StorableIn(blocks[b + 1], m);
    NewBlockLog(cut, m);
    RecsOne(m);
    assert blocks[b + 1][..1] == [m];
    assert blocks[b][..|blocks[b]|] == blocks[b];
    assert cut + [[m]] == Cut(blocks, b + 1, 1);
  }

  lemma ExecLast(kind: Kind, log: seq<Entry>, e: Entry)
    ensures Replay(kind, map[], log + [e]) == Exec(kind, Replay(kind, map[], log), e)
  {
    assert (log + [e])[..|log|] == log;
  }

  lemma LastRecordLast(log: seq<Entry>, e: Entry)
    requires Increasing(log + [e])
    ensures LastRecordId(log + [e]) ==
      if (IsRecord(Peer, e.msg) || IsRecord(Group, e.msg)) && e.id > LastRecordId(log) then e.id else LastRecordId(log)
  {
    hide Rec, IsRecord;
    var all := log + [e];
    assert all[..|log|] == log && all[|log|] == e;
    assert Increasing(log) by {
      forall i, j | 0 <= i < j < |log| ensures log[i].id + |Rec(log[i].msg)| <= log[j].id {
        assert all[i].id + |Rec(all[i].msg)| <= all[j].id;
      }
      forall i | 0 <= i < |log| ensures HEADER_SIZE <= log[i].id { assert HEADER_SIZE <= all[i].id; }
    }
    LastRecordBound(log);
    assert HEADER_SIZE <= all[|log|].id;
    if log != [] { assert all[|log| - 1].id + |Rec(all[|log| - 1].msg)| <= all[|log|].id; }
  }

  /** The next message of the same block extends the image by one. */
  lemma SyncNext(blocks: seq<seq<Message>>, b: nat, j: nat)
    requires BlocksOk(blocks) && b < |blocks| && j < |blocks[b]| && (b == 0 || j > 0)
    ensures SyncEntry(Image(blocks, b, j), Entry(IdAt(blocks, b, j), blocks[b][j])) == Image(blocks, b, j + 1)
  {
    hide Rec, Recs, LogOf, Exec, IsRecord, Replay, LastRecordId, BlockBytes;
    var e, log := Entry(IdAt(blocks, b, j), blocks[b][j]), LogOf(Cut(blocks, b, j));
    var r, next := Image(blocks, b, j), Image(blocks, b, j + 1);
    CutOk(blocks, b, j + 1);
    NextInBlock(blocks, b, j);
    LogIncreasing(Cut(blocks, b, j + 1));
    ExecLast(Peer, log, e);
    ExecLast(Group, log, e);
    LastRecordLast(log, e);
    BytesSize(blocks[b][..j]);
    BytesSize(blocks[b][..j + 1]);
    SplitMsgId(b, HEADER_SIZE + |Recs(blocks[b][..j])|);
    assert Zeros(0) == [] && r.files[b] + [] == r.files[b];
    assert next.files == r.files[..b] + [r.files[b] + Rec(e.msg)];
  }

  lemma BytesSize(ms: seq<Message>)
    ensures |BlockBytes(ms)| == HEADER_SIZE + |Recs(ms)|
  {
  }

  /** After a full block, a message becomes the first of the next exactly under the id right behind its header. */
  lemma SyncNextBlockIff(blocks: seq<seq<Message>>, b: nat, id: int)
    requires BlocksOk(blocks) && b + 1 < |blocks| && (b == 0 || blocks[b] != []) && 0 <= id
    ensures SyncEntry(Image(blocks, b, |blocks[b]|), Entry(id, blocks[b + 1][0])) == Image(blocks, b + 1, 1)
      <==> id == GetMsgId(b + 1, HEADER_SIZE)
  {
    hide Rec, Recs, LogOf, Exec, IsRecord, Replay, LastRecordId, BlockBytes;
    var e, log := Entry(id, blocks[b + 1][0]), LogOf(Cut(blocks, b, |blocks[b]|));
    var r, next := Image(blocks, b, |blocks[b]|), Image(blocks, b + 1, 1);
    FirstOfBlock(blocks, b);
    CutOk(blocks, b + 1, 1);
    assert next.files[b + 1] == FileHeader() + Rec(e.msg);
    if id == GetMsgId(b + 1, HEADER_SIZE) {
      LogIncreasing(Cut(blocks, b + 1, 1));
      ExecLast(Peer, log, e);
      ExecLast(Group, log, e);
      LastRecordLast(log, e);
      SplitMsgId(b + 1, HEADER_SIZE);
      assert blocks[b][..|blocks[b]|] == blocks[b];
      assert Zeros(0) == [] && FileHeader() + [] == FileHeader();
      assert next.files == r.files + [FileHeader() + Rec(e.msg)];
    } else {
      var files := SyncFiles(r.files, e).0;
      assert |files| == b + 2 ==> |files[b + 1]| != |FileHeader() + Rec(e.msg)|;
    }
  }

  /** A message the replica has is skipped. */
  lemma SyncOld(blocks: seq<seq<Message>>, b: nat, j: nat, c: nat, k: nat)
    requires BlocksOk(blocks) && b < |blocks| && j <= |blocks[b]| && c <= b && k < |blocks[c]|
    requires c < b || k < j
    ensures SyncEntry(Image(blocks, b, j), Entry(IdAt(blocks, c, k), blocks[c][k])) == Image(blocks, b, j)
  {
    hide LogOf, Exec, IsRecord, Replay, LastRecordId, BlockBytes, SyncFiles, Cut, Render, IdAt;
    SyncFilesOld(Image(blocks, b, j).files, blocks, b, j, c, k);
  }

  lemma SyncFilesOld(files: seq<seq<Byte>>, blocks: seq<seq<Message>>, b: nat, j: nat, c: nat, k: nat)
    requires BlocksOk(blocks) && b < |blocks| && j <= |blocks[b]| && c <= b && k < |blocks[c]|
    requires (c < b || k < j) && files == Render(Cut(blocks, b, j))
    ensures SyncFiles(files, Entry(IdAt(blocks, c, k), blocks[c][k])) == (files, false)
  {
    hide Rec, Recs, LogOf, BlockBytes, EntriesFrom, BlocksOk;
    EntryInBlock(blocks, c, k);
    EntryAt(GetMsgId(c, HEADER_SIZE), blocks[c], k);
    if c == b {
      var front := blocks[b][..j];
      EntryAt(GetMsgId(c, HEADER_SIZE), front, k);
      assert front[..k] == blocks[b][..k];
      BytesSize(front);
      SplitMsgId(c, HEADER_SIZE + |Recs(blocks[b][..k])|);
    }
  }

  /** A batch of consecutive messages of one block, already known in part or as a whole, or starting right
      where the replica ends, brings the replica to the later of its own end and the batch's. */
  lemma {:induction false} BatchInBlock(blocks: seq<seq<Message>>, b: nat, j: nat, x: nat, y: nat)
    requires BlocksOk(blocks) && b < |blocks| && x <= y <= |blocks[b]| && x <= j <= |blocks[b]| && (b == 0 || j > 0)
    ensures SyncBatch(Image(blocks, b, j), IdAt(blocks, b, x), blocks[b][x..y])
      == Image(blocks, b, if j < y then y else j)
    decreases y - x
  {
    hide Rec, Recs, SyncEntry, Image, BlocksOk;
    var msgs := blocks[b][x..y];
    if x < y {
      assert msgs[0] == blocks[b][x] && msgs[1..] == blocks[b][x + 1..y];
      NextIdAt(blocks, b, x);
      if x < j { SyncOld(blocks, b, j, b, x); } else { SyncNext(blocks, b, j); }
      BatchInBlock(blocks, b, if x < j then j else j + 1, x + 1, y);
    }
  }

  lemma NextIdAt(blocks: seq<seq<Message>>, b: nat, x: nat)
    requires b < |blocks| && x < |blocks[b]|
    ensures IdAt(blocks, b, x + 1) == IdAt(blocks, b, x) + |Rec(blocks[b][x])|
  {
    hide Rec;
    assert blocks[b][..x + 1] == blocks[b][..x] + [blocks[b][x]];
    RecsAppend(blocks[b][..x], [blocks[b][x]]);
    RecsOne(blocks[b][x]);
  }

  lemma {:induction false} BatchOld(blocks: seq<seq<Message>>, b: nat, j: nat, c: nat, x: nat, y: nat)
    requires BlocksOk(blocks) && b < |blocks| && j <= |blocks[b]| && c < b && x <= y <= |blocks[c]|
    ensures SyncBatch(Image(blocks, b, j), IdAt(blocks, c, x), blocks[c][x..y]) == Image(blocks, b, j)
    decreases y - x
  {
    hide Rec, Recs, SyncEntry, Image, BlocksOk;
    var msgs := blocks[c][x..y];
    if x < y {
      assert msgs[0] == blocks[c][x] && msgs[1..] == blocks[c][x + 1..y];
      NextIdAt(blocks, c, x);
      SyncOld(blocks, b, j, c, x);
      BatchOld(blocks, b, j, c, x + 1, y);
    }
  }

  lemma BatchNextBlock(blocks: seq<seq<Message>>, b: nat, y: nat)
    requires BlocksOk(blocks) && b + 1 < |blocks| && (b == 0 || blocks[b] != []) && 0 < y <= |blocks[b + 1]|
    ensures SyncBatch(Image(blocks, b, |blocks[b]|), IdAt(blocks, b + 1, 0), blocks[b + 1][0..y])
      == Image(blocks, b + 1, y)
  {
    hide Rec, SyncEntry, Image, BlocksOk;
    var msgs := blocks[b + 1][0..y];
    assert msgs[0] == blocks[b + 1][0] && msgs[1..] == blocks[b + 1][1..y];
    assert IdAt(blocks, b + 1, 0) == GetMsgId(b + 1, HEADER_SIZE);
    NextIdAt(blocks, b + 1, 0);
    SyncNextBlockIff(blocks, b, GetMsgId(b + 1, HEADER_SIZE));
    BatchInBlock(blocks, b + 1, 1, 1, y);
  }

  // ---------- whole runs ----------

  /** A batch the master sends: messages x..y of block c. */
  datatype Batch = Batch(c: nat, x: nat, y: nat)

  /** A place in the master's log: j messages of block b. */
  datatype Place = Place(b: nat, j: nat)

  predicate IsBatch(blocks: seq<seq<Message>>, t: Batch) {
    t.c < |blocks| && t.x < t.y <= |blocks[t.c]|
  }

  predicate IsPlace(blocks: seq<seq<Message>>, p: Place) {
    p.b < |blocks| && p.j <= |blocks[p.b]| && (p.b == 0 || p.j > 0)
  }

  /** The batch does not leave out anything the replica lacks. */
  predicate NoGap(blocks: seq<seq<Message>>, p: Place, t: Batch)
    requires IsPlace(blocks, p)
  {
    t.c < p.b || (t.c == p.b && t.x <= p.j) || (t.c == p.b + 1 && p.j == |blocks[p.b]| && t.x == 0)
  }

  function After(p: Place, t: Batch): (r: Place) {
    if t.c < p.b || (t.c == p.b && t.y <= p.j) then p else Place(t.c, t.y)
  }

  predicate InOrder(blocks: seq<seq<Message>>, p: Place, ts: seq<Batch>)
    decreases |ts|
  {
    if ts == [] then true else
    && IsPlace(blocks, p) && IsBatch(blocks, ts[0]) && NoGap(blocks, p, ts[0])
    && InOrder(blocks, After(p, ts[0]), ts[1..])
  }

  function EndOf(p: Place, ts: seq<Batch>): (r: Place)
    decreases |ts|
  {
    if ts == [] then p else EndOf(After(p, ts[0]), ts[1..])
  }

  function SyncAll(blocks: seq<seq<Message>>, r: Replica, ts: seq<Batch>): (res: Replica)
    requires |r.files| > 0 && forall i :: 0 <= i < |ts| ==> IsBatch(blocks, ts[i])
    decreases |ts|
  {
    if ts == [] then r else
    var t := ts[0];
    assert IsBatch(blocks, t);
    SyncAll(blocks, SyncBatch(r, IdAt(blocks, t.c, t.x), blocks[t.c][t.x..t.y]), ts[1..])
  }

  /** Replication: any in-order run of single-block batches, with any overlap and redelivery, leaves the
      replica byte-identical to the master's log up to the furthest batch, its indexes those of that log. */
  lemma {:induction false} ReplicaFollows(blocks: seq<seq<Message>>, p: Place, ts: seq<Batch>)
    requires BlocksOk(blocks) && IsPlace(blocks, p) && InOrder(blocks, p, ts)
    requires forall i :: 0 <= i < |ts| ==> IsBatch(blocks, ts[i])
    ensures IsPlace(blocks, EndOf(p, ts))
    ensures SyncAll(blocks, Image(blocks, p.b, p.j), ts) == Image(blocks, EndOf(p, ts).b, EndOf(p, ts).j)
    decreases |ts|
  {
    hide SyncBatch, Image, BlocksOk, IdAt;
    if ts != [] {
      var t := ts[0];
      BatchStep(blocks, p, t);
      ReplicaFollows(blocks, After(p, t), ts[1..]);
    }
  }

  lemma BatchStep(blocks: seq<seq<Message>>, p: Place, t: Batch)
    requires BlocksOk(blocks) && IsPlace(blocks, p) && IsBatch(blocks, t) && NoGap(blocks, p, t)
    ensures IsPlace(blocks, After(p, t))
    ensures SyncBatch(Image(blocks, p.b, p.j), IdAt(blocks, t.c, t.x), blocks[t.c][t.x..t.y])
      == Image(blocks, After(p, t).b, After(p, t).j)
  {
    hide SyncBatch, Image, IdAt, BlockOk;
    if t.c < p.b {
      BatchOld(blocks, p.b, p.j, t.c, t.x, t.y);
    } else if t.c == p.b {
      BatchInBlock(blocks, p.b, p.j, t.x, t.y);
    } else {
      BatchNextBlock(blocks, p.b, t.y);
    }
  }

  lemma {:induction false} SyncBatchAppend(r: Replica, id: int, msgs: seq<Message>, m: Message)
    requires |r.files| > 0
    ensures SyncBatch(r, id, msgs + [m]) == SyncEntry(SyncBatch(r, id, msgs), Entry(id + |Recs(msgs)|, m))
    decreases msgs
  {
    hide SyncEntry, Rec;
    if msgs == [] {
      assert [] + [m] == [m] && [m][1..] == [];
      assert SyncBatch(r, id, [m]) == SyncBatch(SyncEntry(r, Entry(id, m)), id + |Rec(m)|, [m][1..]);
    } else {
      var all := msgs + [m];
      assert all[0] == msgs[0] && all[1..] == msgs[1..] + [m];
      SyncBatchAppend(SyncEntry(r, Entry(id, msgs[0])), id + |Rec(msgs[0])|, msgs[1..], m);
    }
  }

  // ---------- one message on a replica that is a valid store ----------

  /** The message is one the replica skips, or the next of its last block, or the first of the next. */
  predicate Follows(blocks: seq<seq<Message>>, e: Entry)
    requires |blocks| > 0
  {
    var n, o, last := GetBlockNO(e.id), GetBlockOffset(e.id), |blocks| - 1;
    && Storable(e.msg)
    && (n == last ==> o <= |BlockBytes(blocks[last])|)
    && (n == last && o == |BlockBytes(blocks[last])| ==> o + |Rec(e.msg)| <= BLOCK_SIZE)
    && (n == last + 1 ==> o == HEADER_SIZE && |blocks| < MAX_BLOCKS)
  }

  function SyncBlocks(blocks: seq<seq<Message>>, e: Entry): (r: seq<seq<Message>>)
    requires |blocks| > 0
  {
    var n, o, last := GetBlockNO(e.id), GetBlockOffset(e.id), |blocks| - 1;
    if n == last && o == |BlockBytes(blocks[last])| then blocks[..last] + [blocks[last] + [e.msg]]
    else if n == last + 1 then blocks + [[e.msg]]
    else blocks
  }

  lemma SyncFollows(files: seq<seq<Byte>>, blocks: seq<seq<Message>>, e: Entry)
    requires BlocksOk(blocks) && Renders(files, blocks) && Follows(blocks, e)
    ensures var next := SyncBlocks(blocks, e); var (written, done) := SyncFiles(files, e);
      && BlocksOk(next) && Renders(written, next)
      && LogOf(next) == if done then LogOf(blocks) + [e] else LogOf(blocks)
  {
    hide Rec, Recs, LogOf, EntriesFrom, Storable, FileHeader;
    var n, o, last := GetBlockNO(e.id), GetBlockOffset(e.id), |blocks| - 1;
    assert files[last] == BlockBytes(blocks[last]);
    assert Zeros(0) == [];
    if n == last && o == |BlockBytes(blocks[last])| {
      SameBlockLog(blocks, e.msg);
      SplitBack(e.id);
      assert files[last] + [] == files[last];
    } else if n == last + 1 {
      NewBlockLog(blocks, e.msg);
      RecsOne(e.msg);
      SplitBack(e.id);
      assert FileHeader() + [] == FileHeader();
    }
  }

  lemma SplitBack(id: int)
    ensures GetMsgId(GetBlockNO(id), GetBlockOffset(id)) == id
  {
  }
}
