/** The whole store: one log, both kinds of queues, their index files, and replication, as in ims/storage.go. */
module Storages {
  import opened Bytes
  import opened Protocol
  import opened StorageFiles
  import opened Queues
  import opened Recovery
  import opened Saving
  import opened PeerStorages
  import opened GroupStorages
  import opened Replication

  // ---------- what a restart finds, and when it recovers the indexes ----------

  /** How long the log was when an index file was written, and the order its queues are listed in. */
  datatype Mark = Mark(n: nat, order: seq<UserID>)

  /** An index file, if there is one, holds the index that was saved at its mark, right or not: its last ids are
      those of records of its kind. */
  ghost predicate FileOk(kind: Kind, file: Option<seq<Byte>>, log: seq<Entry>, mark: Mark, saved: Index) {
    file.Some? ==>
      && mark.n <= |log| && SaneIndex(kind, saved, log[..mark.n]) && Lists(mark.order, saved)
      && file.value == IndexBytes(kind, saved, mark.order)
  }

  /** The index that was saved was the log's. */
  ghost predicate FileExact(kind: Kind, file: Option<seq<Byte>>, log: seq<Entry>, mark: Mark, saved: Index) {
    file.Some? ==> mark.n <= |log| && saved == Replay(kind, map[], log[..mark.n])
  }

  function MarkOf(file: Option<seq<Byte>>, mark: Mark): (r: Option<nat>) { if file.Some? then Some(mark.n) else None }

  /** The last id an index file hands to recovery. */
  function FileId(file: Option<seq<Byte>>, mark: Mark, saved: Index): (r: int) {
    if file.Some? then MaxLastId(0, saved, mark.order) else 0
  }

  ghost predicate IsId(kind: Kind, log: seq<Entry>, id: int) { id == 0 || IsRecordId(kind, log, id) }

  function Between(log: seq<Entry>, a: nat, b: nat): (r: seq<Entry>)
    requires a <= |log| && b <= |log|
  {
    log[Min(a, b)..Max(a, b)]
  }

  /** The last id once the users' index has been repaired, if it has a file: where the repair of groups starts. */
  ghost function GroupsFrom(blocks: seq<seq<Message>>, peers: bool, id: int): (r: int)
    requires |blocks| > 0
  {
    var at := PeerResume(blocks, id);
    if !peers || at > |LogOf(blocks)| then id else Max(id, LastIdOf(Peer, LogOf(blocks)[at..]))
  }

  /** The condition under which a restart recovers an index from a file that was right after n entries, and repairs it
      from entry `at` on: no record of its kind lies in between. The users' repair starts at
      `PeerResume(blocks, id)`, behind the record with the last id of both files; that of groups at
      `RepairPlace(blocks, GroupsFrom(blocks, peers, id))`, where that of users has ended, with the record there. */
  ghost predicate Recovers(kind: Kind, log: seq<Entry>, n: Option<nat>, at: nat)
    requires at <= |log| && (n.Some? ==> n.value <= |log|)
  {
    n.Some? ==> NoRecords(kind, Between(log, n.value, at))
  }

  /** What a restart makes of one queue, when the file was right about it, or at least knew its last message: it is
      right again exactly when no record of the queue lies in between; its last message is known exactly when none was
      passed over, or a later one was found. */
  ghost predicate QueueAfter(kind: Kind, index: Index, saved: Index, log: seq<Entry>, n: nat, at: nat, u: UserID)
    requires n <= |log| && at <= |log|
  {
    && (Counted(kind, saved, log[..n], u) ==>
          (Counted(kind, index, log, u) <==> Queue(kind, Between(log, n, at), u) == []))
    && (LastOk(kind, saved, log[..n], u) ==>
          (LastOk(kind, index, log, u)
           <==> Queue(kind, log[at..], u) != [] || Queue(kind, log[Min(n, at)..at], u) == []))
  }

  /** What it makes of a whole index: without a file it is replayed; from a file each queue comes out as above, and
      all together, from one that was right, exactly under the condition. */
  ghost predicate IndexAfter(kind: Kind, index: Index, log: seq<Entry>, at: nat, file: Option<seq<Byte>>, mark: Mark,
                             saved: Index)
    requires file.Some? ==> mark.n <= |log|
  {
    && at <= |log|
    && (file.None? ==> index == Replay(kind, map[], log))
    && (file.Some? ==> forall u :: QueueAfter(kind, index, saved, log, mark.n, at, u))
    && (FileExact(kind, file, log, mark, saved) ==>
          (index == Replay(kind, map[], log) <==> Recovers(kind, log, MarkOf(file, mark), at)))
  }

  /** The repaired index. */
  lemma IndexRepaired(kind: Kind, log: seq<Entry>, at: nat, file: Option<seq<Byte>>, mark: Mark, saved: Index)
    requires FileOk(kind, file, log, mark, saved) && file.Some? && at <= |log| && Increasing(log)
    requires forall e :: e in log ==> e.id < MAX_ID
    ensures mark.n <= |log| && SaneIndex(kind, Replay(kind, Narrowed(kind, saved), log[at..]), log)
    ensures IndexAfter(kind, Replay(kind, Narrowed(kind, saved), log[at..]), log, at, file, mark, saved)
  {
    hide Replay, Queue, Increasing, SaneIndex, Narrowed, Lists, IndexBytes, NoRecords, QueueAfter, Saveable;
    var n := mark.n;
    PrefixIncreasing(log, n);
    SaneGrows(kind, saved, log[..n], log);
    NarrowedSane(kind, saved, log);
    SaneReplay(kind, Narrowed(kind, saved), log, log[at..]);
    forall u ensures QueueAfter(kind, Replay(kind, Narrowed(kind, saved), log[at..]), saved, log, n, at, u) {
      QueueRepaired(kind, saved, log, n, at, u);
    }
    CheckpointReplayIff(kind, log, n, at);
    IndexSaveable(kind, log[..n]);
  }

  lemma QueueRepaired(kind: Kind, saved: Index, log: seq<Entry>, n: nat, at: nat, u: UserID)
    requires n <= |log| && at <= |log| && Increasing(log) && (forall e :: e in log ==> e.id < MAX_ID)
    requires SaneIndex(kind, saved, log[..n])
    ensures QueueAfter(kind, Replay(kind, Narrowed(kind, saved), log[at..]), saved, log, n, at, u)
  {
    hide Replay, Queue, Counted, LastOk, Increasing, SaneIndex, Narrowed;
    PrefixIncreasing(log, n);
    NarrowedKeeps(kind, saved, log[..n], u);
    if Counted(kind, saved, log[..n], u) { QueueRecoversIff(kind, Narrowed(kind, saved), log, n, at, u); }
    if LastOk(kind, saved, log[..n], u) { LastAfter(kind, Narrowed(kind, saved), log, n, at, u); }
  }

  /** The index that is created without a file. */
  lemma IndexCreated(kind: Kind, log: seq<Entry>, at: nat, file: Option<seq<Byte>>, mark: Mark, saved: Index)
    requires file.None? && at <= |log|
    ensures SaneIndex(kind, Replay(kind, map[], log), log)
    ensures IndexAfter(kind, Replay(kind, map[], log), log, at, file, mark, saved)
  {
    hide Replay, SaneIndex, NoRecords;
    ReplayIsSane(kind, log);
  }

  /** An id recovery can start from. */
  predicate IsStart(log: seq<Entry>, id: int) { 0 <= id && (id == 0 || PlaceOf(log, id) < |log|) }

  lemma StartIs(log: seq<Entry>, id: int)
    ensures IsStart(log, id) ==> id == 0 || PlaceOf(log, id) < |log|
  {
  }

  lemma FromIs(blocks: seq<seq<Message>>, peers: bool, id: int)
    requires |blocks| > 0 && PeerResume(blocks, id) <= |LogOf(blocks)|
    ensures GroupsFrom(blocks, peers, id) ==
      if peers then Max(id, LastIdOf(Peer, LogOf(blocks)[PeerResume(blocks, id)..])) else id
  {
  }

  /** The ids recovery starts from are ids of the log, or 0. */
  lemma PlacesExist(blocks: seq<seq<Message>>, peers: bool, id: int)
    requires BlocksOk(blocks) && IsStart(LogOf(blocks), id)
    ensures PeerResume(blocks, id) <= |LogOf(blocks)| && IsStart(LogOf(blocks), GroupsFrom(blocks, peers, id))
    ensures RepairPlace(blocks, GroupsFrom(blocks, peers, id)) <= |LogOf(blocks)|
  {
    hide Rec, LogOf, PlaceOf, LastIdOf, BlockOk, Increasing;
    LogIncreasing(blocks);
    ResumeInLog(blocks, id);
    TailLastId(LogOf(blocks), PeerResume(blocks, id));
    RepairStarts(blocks, GroupsFrom(blocks, peers, id));
  }

  lemma IdIsStart(kind: Kind, log: seq<Entry>, id: int)
    requires Increasing(log) && IsId(kind, log, id)
    ensures IsStart(log, id) && id <= LastIdOf(kind, log)
  {
    hide Rec, PlaceOf, LastIdOf, Increasing, IsRecord;
    LastIdBelow(kind, log);
    if id != 0 {
      var i :| 0 <= i < |log| && log[i].id == id && IsRecord(kind, log[i].msg);
      PlaceInLog(log, i);
      LastIdCovers(kind, log, i);
    }
  }

  /** The last id in a file is 0 or that of a record of its kind; from an index that was right, the last one. */
  lemma FileIdIs(kind: Kind, file: Option<seq<Byte>>, log: seq<Entry>, mark: Mark, saved: Index)
    requires Increasing(log) && FileOk(kind, file, log, mark, saved)
    ensures var id := FileId(file, mark, saved);
      && 0 <= id && IsId(kind, log, id) && IsStart(log, id)
      && (file.Some? && FileExact(kind, file, log, mark, saved) ==> id == LastIdOf(kind, log[..mark.n]))
  {
    hide Rec, Increasing, IndexBytes, SaneIndex, LastIdOf, Replay, PlaceOf;
    if file.Some? {
      PrefixIncreasing(log, mark.n);
      SaneGrows(kind, saved, log[..mark.n], log);
      SaneLastId(kind, saved, mark.order, log);
      MaxLastIdFrom(0, saved, mark.order);
      LastIdBelow(kind, log[..mark.n]);
      if saved == Replay(kind, map[], log[..mark.n]) { CheckpointLastId(kind, 0, log[..mark.n], mark.order); }
    }
    IdIsStart(kind, log, FileId(file, mark, saved));
  }

  lemma ResumeInLog(blocks: seq<seq<Message>>, id: int)
    requires BlocksOk(blocks) && IsStart(LogOf(blocks), id)
    ensures PeerResume(blocks, id) <= |LogOf(blocks)|
  {
    hide Rec, LogOf, PlaceOf, BlockOk;
    RepairStarts(blocks, id);
  }

  lemma TailLastId(log: seq<Entry>, at: nat)
    requires Increasing(log) && at <= |log|
    ensures IsStart(log, LastIdOf(Peer, log[at..]))
  {
    hide Rec, PlaceOf, LastIdOf, Increasing;
    LastIdPlace(Peer, log, |log|);
    SuffixIncreasing(log, at);
    LastIdConcat(Peer, log[..at], log[at..]);
    LastIdBelow(Peer, log[at..]);
    assert log == log[..at] + log[at..] && log[..|log|] == log;
  }

  lemma {:induction false} LastOfKinds(log: seq<Entry>)
    requires Increasing(log)
    ensures LastRecordId(log) == Max(LastIdOf(Peer, log), LastIdOf(Group, log))
  {
    hide Rec, IsRecord, Increasing;
    if log != [] {
      var n := |log| - 1;
      IncreasingInit(log);
      LastOfKinds(log[..n]);
      LastIdBelow(Peer, log[..n]);
      LastIdBelow(Group, log[..n]);
    }
  }

  /** A tail whose start is separated from a place only by other entries has the last id of that place's tail. */
  lemma TailsAgree(kind: Kind, log: seq<Entry>, a: nat, at: nat)
    requires Increasing(log) && a <= at <= |log| && NoRecords(kind, log[a..at])
    ensures LastIdOf(kind, log[a..]) == LastIdOf(kind, log[at..])
  {
    hide Rec, LastIdOf, IsRecord, Increasing, NoRecords;
    SuffixIncreasing(log, at);
    LastIdNone(kind, log[a..at]);
    assert log[a..] == log[a..at] + log[at..];
    LastIdConcat(kind, log[a..at], log[at..]);
    LastIdBelow(kind, log[at..]);
  }

  lemma LastIdOfParts(kind: Kind, log: seq<Entry>, a: nat, at: nat, base: int)
    requires Increasing(log) && a <= |log| && at <= |log| && NoRecords(kind, Between(log, a, at))
    requires LastIdOf(kind, log[..a]) <= base && 0 <= base
    ensures Max(base, LastIdOf(kind, log[at..])) == Max(base, LastIdOf(kind, log))
  {
    hide Rec, LastIdOf, IsRecord, Increasing, NoRecords;
    if a <= at { TailsAgree(kind, log, a, at); } else { TailsAgree(kind, log, at, a); }
    SuffixIncreasing(log, a);
    assert log == log[..a] + log[a..];
    LastIdConcat(kind, log[..a], log[a..]);
    LastIdBelow(kind, log[a..]);
  }

  // ---------- batches that continue a slave's log ----------

  /** The messages are those of a batch of the master's log, which leaves out nothing behind p. */
  ghost predicate Continues(master: seq<seq<Message>>, p: Place, t: Batch, firstId: int, msgs: seq<Message>) {
    && BlocksOk(master) && IsPlace(master, p) && IsBatch(master, t) && NoGap(master, p, t)
    && firstId == IdAt(master, t.c, t.x) && msgs == master[t.c][t.x..t.y]
  }

  /** The image such a batch leads to is a store's, and its log a longer one. */
  lemma ContinuesImage(master: seq<seq<Message>>, p: Place, t: Batch, firstId: int, msgs: seq<Message>)
    requires Continues(master, p, t, firstId, msgs)
    ensures IsPlace(master, p) && IsPlace(master, After(p, t))
    ensures var q := After(p, t); var cut, r := Cut(master, q.b, q.j), Image(master, q.b, q.j);
      && SyncBatch(Image(master, p.b, p.j), firstId, msgs) == r
      && BlocksOk(cut) && Renders(r.files, cut)
      && (forall kind :: Linked(kind, LogOf(master)) ==> Linked(kind, LogOf(cut)))
      && LogOf(Cut(master, p.b, p.j)) <= LogOf(cut)
  {
    hide LogOf, Rec, BlocksOk, Linked, Replay, LastRecordId, SyncBatch, IdAt, BlockBytes;
    var q := After(p, t);
    var cut := Cut(master, q.b, q.j);
    BatchStep(master, p, t);
    CutOk(master, q.b, q.j);
    CutPrefix(master, q.b, q.j);
    CutsGrow(master, p, q);
    assert LogOf(master)[..|LogOf(cut)|] == LogOf(cut);
    forall kind | Linked(kind, LogOf(master)) ensures Linked(kind, LogOf(cut)) {
      LinkedPrefix(kind, LogOf(master), |LogOf(cut)|);
    }
  }

  /** What a batch does to the files does not depend on the indexes, nor what it does to one queue on the others. */
  lemma {:induction false} SyncBatchSame(r: Replica, s: Replica, id: int, msgs: seq<Message>)
    requires |r.files| > 0 && r.files == s.files
    ensures var next, to := SyncBatch(r, id, msgs), SyncBatch(s, id, msgs);
      && next.files == to.files && (r.peers == s.peers ==> next.peers == to.peers)
      && (forall v :: Get(r.peers, v) == Get(s.peers, v) ==> Get(next.peers, v) == Get(to.peers, v))
      && (forall v :: Get(r.groups, v) == Get(s.groups, v) ==> Get(next.groups, v) == Get(to.groups, v))
    decreases msgs
  {
    hide Rec, SyncFiles, Exec;
    if msgs != [] {
      var e := Entry(id, msgs[0]);
      forall v, kind, a: Index, b: Index | Get(a, v) == Get(b, v)
        ensures Get(Exec(kind, a, e), v) == Get(Exec(kind, b, e), v)
      {
        ExecSame(kind, a, b, e, v);
      }
      SyncBatchSame(SyncEntry(r, e), SyncEntry(s, e), id + |Rec(msgs[0])|, msgs[1..]);
    }
  }

  lemma ExecSame(kind: Kind, a: Index, b: Index, e: Entry, v: UserID)
    requires Get(a, v) == Get(b, v)
    ensures Get(Exec(kind, a, e), v) == Get(Exec(kind, b, e), v)
  {
    hide IsRecord;
  }

  /** The messages of a batch are entries of the log it leads to. */
  predicate EntriesIn(id: int, msgs: seq<Message>, log: seq<Entry>)
    decreases msgs
  {
    msgs != [] ==> Entry(id, msgs[0]) in log && EntriesIn(id + |Rec(msgs[0])|, msgs[1..], log)
  }

  /** So a replica's indexes, right or not, still know only ids of records. */
  lemma {:induction false} SyncBatchSane(r: Replica, id: int, msgs: seq<Message>, log: seq<Entry>)
    requires |r.files| > 0 && SaneReplica(r, log) && Increasing(log) && EntriesIn(id, msgs, log)
    ensures SaneReplica(SyncBatch(r, id, msgs), log)
    decreases msgs
  {
    hide Rec, SyncFiles, Increasing, LastRecordId, SaneIndex, Exec;
    if msgs != [] {
      var e := Entry(id, msgs[0]);
      SaneExec(Peer, r.peers, log, e);
      SaneExec(Group, r.groups, log, e);
      RecordIdBound(log, e);
      SyncBatchSane(SyncEntry(r, e), id + |Rec(msgs[0])|, msgs[1..], log);
    }
  }

  ghost predicate SaneReplica(r: Replica, log: seq<Entry>) {
    SaneIndex(Peer, r.peers, log) && SaneIndex(Group, r.groups, log) && 0 <= r.lastId <= LastRecordId(log)
  }

  lemma RecordIdBound(log: seq<Entry>, e: Entry)
    requires Increasing(log) && e in log
    ensures IsRecord(Peer, e.msg) || IsRecord(Group, e.msg) ==> 0 < e.id <= LastRecordId(log)
  {
    hide Rec, IsRecord, LastRecordId, LastIdOf, Increasing;
    LastOfKinds(log);
    var i :| 0 <= i < |log| && log[i] == e;
    PlaceInLog(log, i);
    if IsRecord(Peer, e.msg) { LastIdCovers(Peer, log, i); }
    if IsRecord(Group, e.msg) { LastIdCovers(Group, log, i); }
  }

  lemma {:induction false} BatchEntries(master: seq<seq<Message>>, b: nat, j: nat, c: nat, x: nat, y: nat)
    requires BlocksOk(master) && b < |master| && j <= |master[b]| && (b == 0 || j > 0)
    requires c <= b && x <= y <= |master[c]| && (c == b ==> y <= j)
    ensures EntriesIn(IdAt(master, c, x), master[c][x..y], LogOf(Cut(master, b, j)))
    decreases y - x
  {
    hide LogOf, Rec, Recs, BlockOk, EntriesFrom;
    var msgs := master[c][x..y];
    if x < y {
      assert msgs[0] == master[c][x] && msgs[1..] == master[c][x + 1..y];
      NextIdAt(master, c, x);
      var cut := Cut(master, b, j);
      assert cut[c][..x] == master[c][..x] && cut[c][x] == master[c][x];
      EntryAt(GetMsgId(c, HEADER_SIZE), cut[c], x);
      LogPrefix(cut, c);
      LogPrefix(cut, c + 1);
      assert LogOf(cut)[|LogOf(cut[..c])| + x] == Entry(IdAt(master, c, x), msgs[0]);
      BatchEntries(master, b, j, c, x + 1, y);
    }
  }

  // ---------- the store ----------

  class Storage {
    const f: StorageFile
    const ps: PeerStorage
    const gs: GroupStorage
    /** The index files on disk. */
    var peerFile: Option<seq<Byte>>
    var groupFile: Option<seq<Byte>>
    ghost var peerMark: Mark
    ghost var groupMark: Mark
    /** The indexes the files were written from. */
    ghost var peerSaved: Index
    ghost var groupSaved: Index

    ghost predicate FilesOk(log: seq<Entry>)
      reads this
    {
      FileOk(Peer, peerFile, log, peerMark, peerSaved) && FileOk(Group, groupFile, log, groupMark, groupSaved)
    }

    /** What holds always: the parts belong together, and the last ids in the indexes and their files are ids of
        records. Some queues may have been misnumbered, or lost messages, at a restart. */
    ghost predicate Sane()
      reads this, f, ps, gs
    {
      ps.f == f && gs.f == f && ps.Sane() && gs.Sane() && FilesOk(f.Log())
    }

    /** All that concerns users is right. */
    ghost predicate Users()
      reads this, f, ps, gs
    {
      Sane() && ps.Valid() && FileExact(Peer, peerFile, f.Log(), peerMark, peerSaved)
    }

    /** The groups are right as well. */
    ghost predicate Valid()
      reads this, f, ps, gs
    {
      && Users() && gs.Valid() && f.lastId == LastRecordId(f.Log())
      && FileExact(Group, groupFile, f.Log(), groupMark, groupSaved)
    }

    /** `NewStorage` over what a stopped server left on disk, whatever earlier restarts have made of its queues. Each
        queue is right again, or at least known, exactly under its own condition, and each index as a whole, from the
        file of one that was right, under its. */
    constructor NewStorage(disk: seq<seq<Byte>>, peers: Option<seq<Byte>>, groups: Option<seq<Byte>>,
                           ghost stored: seq<seq<Message>>, ghost pm: Mark, ghost gm: Mark, ghost pi: Index,
                           ghost gi: Index)
      requires disk == [] || (BlocksOk(stored) && Renders(disk, stored))
      requires var log := LogOf(if disk == [] then [[]] else stored);
        FileOk(Peer, peers, log, pm, pi) && FileOk(Group, groups, log, gm, gi)
      ensures fresh(f) && fresh(ps) && fresh(gs) && Sane()
      ensures f.blocks == if disk == [] then [[]] else stored
      ensures var id := Max(FileId(peers, pm, pi), FileId(groups, gm, gi));
        && IndexAfter(Peer, ps.index, f.Log(), PeerResume(f.blocks, id), peers, pm, pi)
        && IndexAfter(Group, gs.index, f.Log(), RepairPlace(f.blocks, GroupsFrom(f.blocks, peers.Some?, id)),
                      groups, gm, gi)
      ensures Linked(Peer, f.Log()) && FileExact(Peer, peers, f.Log(), pm, pi) ==>
        && (ps.index == Replay(Peer, map[], f.Log()) ==> Users())
        && (Users() && gs.index == Replay(Group, map[], f.Log()) ==>
              (FileExact(Group, groups, f.Log(), gm, gi) && Linked(Group, f.Log()) ==> Valid()))
    {
      var file := new StorageFile(disk, stored);
      var p := new PeerStorage(file);
      var q := new GroupStorage(file);
      f, ps, gs := file, p, q;
      peerFile, groupFile, peerMark, groupMark, peerSaved, groupSaved := peers, groups, pm, gm, pi, gi;
      new;
      hide LogOf, BlocksOk, Renders, Replay, Linked, FileExact, IndexAfter, Max, PeerResume, RepairPlace, GroupsFrom;
      assert f.Log() == LogOf(if disk == [] then [[]] else stored);
      Start();
    }

    /** The steps of `NewStorage` on the parts. */
    method Start()
      requires f.Valid() && ps.f == f && gs.f == f && ps.index == map[] && gs.index == map[] && f.lastId == 0
      requires FilesOk(f.Log())
      modifies this, f`lastId, f`lastSavedId, ps, gs
      ensures Sane()
      ensures var id := old(Max(FileId(peerFile, peerMark, peerSaved), FileId(groupFile, groupMark, groupSaved)));
        && IndexAfter(Peer, ps.index, f.Log(), PeerResume(f.blocks, id), old(peerFile), old(peerMark), old(peerSaved))
        && IndexAfter(Group, gs.index, f.Log(), RepairPlace(f.blocks, GroupsFrom(f.blocks, old(peerFile.Some?), id)),
                      old(groupFile), old(groupMark), old(groupSaved))
      ensures Linked(Peer, f.Log()) && old(FileExact(Peer, peerFile, f.Log(), peerMark, peerSaved)) ==>
        && (ps.index == Replay(Peer, map[], f.Log()) ==> Users())
        && (Users() && gs.index == Replay(Group, map[], f.Log()) ==>
              (old(FileExact(Group, groupFile, f.Log(), groupMark, groupSaved)) && Linked(Group, f.Log()) ==> Valid()))
    {
      hide LogOf, Replay, BlocksOk, Renders, Linked, LastRecordId, SaneIndex, IndexAfter, FileId, FileOk, FileExact;
      RecoverIndexes();
      AfterRecovery();
      FlushIndex();
    }

    /** The last id the files hand to recovery, and the places in the log where the repairs start. */
    ghost function SavedId(): (r: int)
      reads this
    {
      Max(FileId(peerFile, peerMark, peerSaved), FileId(groupFile, groupMark, groupSaved))
    }

    ghost function PeersAt(): (r: nat)
      requires |f.blocks| > 0
      reads this, f`blocks
    {
      PeerResume(f.blocks, SavedId())
    }

    ghost function GroupsAt(): (r: nat)
      requires |f.blocks| > 0
      reads this, f`blocks
    {
      RepairPlace(f.blocks, GroupsFrom(f.blocks, peerFile.Some?, SavedId()))
    }

    /** The steps that read, repair and create the indexes, in the order of `NewStorage`. */
    method RecoverIndexes()
      requires f.Valid() && ps.f == f && gs.f == f && ps.index == map[] && gs.index == map[] && f.lastId == 0
      requires FilesOk(f.Log())
      modifies f`lastId, f`lastSavedId, ps, gs
      ensures f.Valid() && PeersAt() <= |f.Log()| && GroupsAt() <= |f.Log()|
      ensures ps.index == if peerFile.Some? then Replay(Peer, Narrowed(Peer, peerSaved), f.Log()[PeersAt()..])
                          else Replay(Peer, map[], f.Log())
      ensures gs.index == if groupFile.Some? then Replay(Group, Narrowed(Group, groupSaved), f.Log()[GroupsAt()..])
                          else Replay(Group, map[], f.Log())
      ensures f.lastId == FinalId(f.blocks, peerFile.Some?, groupFile.Some?, SavedId())
    {
      hide LogOf, Replay, BlocksOk, Renders, LastRecordId, PlaceOf, LastIdOf, PeerResume, RepairPlace, Increasing,
        FilesOk, Narrowed, PeersAt, GroupsAt, GroupsFrom, IsStart;
      LogIncreasing(f.blocks);
      FilesFit(f.Log());
      PlacesExist(f.blocks, peerFile.Some?, SavedId());
      PlacesAre();
      StartIs(f.Log(), SavedId());
      StartIs(f.Log(), GroupsFrom(f.blocks, peerFile.Some?, SavedId()));
      ReadIndexes();
      if peerFile.Some? {
        ps.RepairPeerIndex();
      }
      FromIs(f.blocks, peerFile.Some?, SavedId());
      assert f.lastId == GroupsFrom(f.blocks, peerFile.Some?, SavedId());
      if groupFile.Some? {
        gs.RepairGroupIndex();
      }
      if peerFile.None? {
        ps.CreatePeerIndex();
      }
      if groupFile.None? {
        gs.CreateGroupIndex();
      }
    }

    lemma PlacesAre()
      requires |f.blocks| > 0
      ensures PeersAt() == PeerResume(f.blocks, SavedId())
      ensures GroupsAt() == RepairPlace(f.blocks, GroupsFrom(f.blocks, peerFile.Some?, SavedId()))
    {
    }

    /** What these steps come to. */
    lemma AfterRecovery()
      requires f.Valid() && ps.f == f && gs.f == f && FilesOk(f.Log())
      requires PeersAt() <= |f.Log()| && GroupsAt() <= |f.Log()|
      requires ps.index == if peerFile.Some? then Replay(Peer, Narrowed(Peer, peerSaved), f.Log()[PeersAt()..])
                           else Replay(Peer, map[], f.Log())
      requires gs.index == if groupFile.Some? then Replay(Group, Narrowed(Group, groupSaved), f.Log()[GroupsAt()..])
                           else Replay(Group, map[], f.Log())
      requires f.lastId == FinalId(f.blocks, peerFile.Some?, groupFile.Some?, SavedId())
      ensures Sane()
      ensures IndexAfter(Peer, ps.index, f.Log(), PeersAt(), peerFile, peerMark, peerSaved)
      ensures IndexAfter(Group, gs.index, f.Log(), GroupsAt(), groupFile, groupMark, groupSaved)
      ensures ps.index == Replay(Peer, map[], f.Log()) && gs.index == Replay(Group, map[], f.Log()) ==>
        (FilesExact() ==> f.lastId == LastRecordId(f.Log()))
    {
      hide LogOf, Replay, BlocksOk, Renders, LastRecordId, Lists, IndexBytes, PeerResume, RepairPlace, Increasing,
        SaneIndex, IndexAfter, FileExact, Narrowed, FileId, IsStart, FinalId, GroupsFrom;
      ghost var log := f.Log();
      IdsFit(f.blocks);
      FilesFit(log);
      if peerFile.Some? {
        IndexRepaired(Peer, log, PeersAt(), peerFile, peerMark, peerSaved);
      } else {
        IndexCreated(Peer, log, PeersAt(), peerFile, peerMark, peerSaved);
      }
      if groupFile.Some? {
        IndexRepaired(Group, log, GroupsAt(), groupFile, groupMark, groupSaved);
      } else {
        IndexCreated(Group, log, GroupsAt(), groupFile, groupMark, groupSaved);
      }
      FinalBound(f.blocks, peerFile.Some?, groupFile.Some?, SavedId());
      LastIdAfter(f.blocks, ps.index, gs.index, peerFile, groupFile, peerMark, groupMark, peerSaved, groupSaved);
    }

    ghost predicate FilesExact()
      reads this, f
    {
      && FileExact(Peer, peerFile, f.Log(), peerMark, peerSaved)
      && FileExact(Group, groupFile, f.Log(), groupMark, groupSaved)
    }

    lemma FilesFit(log: seq<Entry>)
      requires FilesOk(log) && Increasing(log)
      ensures peerFile.Some? ==> peerMark.n <= |log|
      ensures groupFile.Some? ==> groupMark.n <= |log|
      ensures FileOk(Peer, peerFile, log, peerMark, peerSaved) && FileOk(Group, groupFile, log, groupMark, groupSaved)
      ensures var p, g := FileId(peerFile, peerMark, peerSaved), FileId(groupFile, groupMark, groupSaved);
        p >= 0 && g >= 0 && IsStart(log, Max(p, g)) && Max(p, g) <= LastRecordId(log)
    {
      hide SaneIndex, Lists, IndexBytes, Increasing, PlaceOf, LastIdOf, LastRecordId, IsRecordId;
      LastOfKinds(log);
      FileIdIs(Peer, peerFile, log, peerMark, peerSaved);
      FileIdIs(Group, groupFile, log, groupMark, groupSaved);
      IdIsStart(Peer, log, FileId(peerFile, peerMark, peerSaved));
      IdIsStart(Group, log, FileId(groupFile, groupMark, groupSaved));
    }

    /** Reading the index files that there are. */
    method ReadIndexes()
      requires f.Valid() && ps.f == f && gs.f == f && ps.index == map[] && gs.index == map[] && f.lastId == 0
      requires FilesOk(f.Log())
      modifies f`lastId, f`lastSavedId, ps, gs
      ensures f.Valid()
      ensures ps.index == if peerFile.Some? then Narrowed(Peer, peerSaved) else map[]
      ensures gs.index == if groupFile.Some? then Narrowed(Group, groupSaved) else map[]
      ensures f.lastSavedId == f.lastId
      ensures f.lastId == Max(FileId(peerFile, peerMark, peerSaved), FileId(groupFile, groupMark, groupSaved))
    {
      hide LogOf, BlocksOk, Renders, Lists, IndexBytes, Increasing, SaneIndex, Narrowed;
      ghost var log := f.Log();
      IdsFit(f.blocks);
      FilesFit(log);
      if peerFile.Some? {
        SaneGrows(Peer, peerSaved, log[..peerMark.n], log);
        ps.ReadPeerIndex(peerFile.value, peerSaved, peerMark.order, log);
      }
      if groupFile.Some? {
        SaneGrows(Group, groupSaved, log[..groupMark.n], log);
        gs.ReadGroupIndex(groupFile.value, groupSaved, groupMark.order, log);
      }
      f.lastSavedId := f.lastId;
    }

    /** `flushIndex`: writes both index files. */
    method FlushIndexFiles()
      requires f.Valid() && ps.f == f && gs.f == f
      modifies this, f`lastSavedId
      ensures f.Valid() && peerFile.Some? && groupFile.Some? && f.lastSavedId == f.lastId
      ensures Lists(peerMark.order, ps.index) && peerFile.value == IndexBytes(Peer, ps.index, peerMark.order)
      ensures Lists(groupMark.order, gs.index) && groupFile.value == IndexBytes(Group, gs.index, groupMark.order)
      ensures peerMark.n == groupMark.n == |f.Log()| && peerSaved == ps.index && groupSaved == gs.index
      ensures (old(Sane()) ==> Sane()) && (old(Users()) ==> Users()) && (old(Valid()) ==> Valid())
    {
      hide LogOf, BlocksOk, Renders, Lists, IndexBytes, Replay, Linked, LastRecordId, SaneIndex;
      assert f.Log()[..|f.Log()|] == f.Log();
      var peers, order := SaveIndex(Peer, ps.index);
      peerFile, peerMark, peerSaved := Some(peers), Mark(|f.Log()|, order), ps.index;
      var groups, order2 := SaveIndex(Group, gs.index);
      groupFile, groupMark, groupSaved := Some(groups), Mark(|f.Log()|, order2), gs.index;
      f.lastSavedId := f.lastId;
    }

    /** `FlushIndex`: writes them when the log has grown by more than two blocks. */
    method FlushIndex()
      requires f.Valid() && ps.f == f && gs.f == f
      modifies this, f`lastSavedId
      ensures f.Valid() && (old(Sane()) ==> Sane()) && (old(Users()) ==> Users()) && (old(Valid()) ==> Valid())
      ensures f.lastId - old(f.lastSavedId) > 2 * BLOCK_SIZE ==>
        && f.lastSavedId == f.lastId && MarkOf(peerFile, peerMark) == MarkOf(groupFile, groupMark) == Some(|f.Log()|)
        && peerSaved == ps.index && groupSaved == gs.index
      ensures f.lastId - old(f.lastSavedId) <= 2 * BLOCK_SIZE ==>
        && unchanged(`peerFile, `groupFile, `peerMark, `groupMark, `peerSaved, `groupSaved)
        && f.lastSavedId == old(f.lastSavedId)
    {
      hide LogOf, BlocksOk, Renders, Lists, IndexBytes, Replay, Linked, LastRecordId, SaneIndex;
      if f.lastId - f.lastSavedId > 2 * BLOCK_SIZE {
        FlushIndexFiles();
      }
    }

    /** A message for a user: each queue that was right, or known, stays so, whatever the others are like; and so do
        all of them together. */
    method SavePeerMessage(appid: Int64, uid: Int64, deviceId: Int64, msg: Message) returns (msgid: int, prevMsgid: int)
      requires Sane() && Storable(msg) && |f.files| < MAX_BLOCKS - 1
      modifies f, ps
      ensures Sane() && (!IsQueueCommand(msg.cmd) ==> (old(Users()) ==> Users()) && (old(Valid()) ==> Valid()))
      ensures !IsQueueCommand(msg.cmd) ==> forall v ::
        && (old(ps.Right(v)) ==> ps.Right(v)) && (old(gs.Right(v)) ==> gs.Right(v))
        && (old(gs.Known(v)) ==> gs.Known(v)) && (forall w :: old(gs.Chain(v, w)) ==> gs.Chain(v, w))
      ensures var i := old(ps.GetPeerIndex(appid, uid));
        && prevMsgid == i.lastMsgid
        && f.Log() == old(f.Log()) + [Entry(msgid, msg), Entry(f.lastId,
             RecordOf(Peer, UserID(appid, uid), i, msgid, deviceId, IsGroupMessage(msg)))]
      ensures gs.index == old(gs.index) && peerFile == old(peerFile) && groupFile == old(groupFile)
    {
      hide LogOf, BlocksOk, Renders, Replay, Linked, LastRecordId, RecordOf, Storable, FileOk, SaneIndex, IsRight,
        IsKnown, IsChain, NewItem, FileExact, PeerSavedAs;
      ghost var log := f.Log();
      msgid, prevMsgid := ps.SavePeerMessage(appid, uid, deviceId, msg);
      FilesStayOk(log, f.Log());
      SaneGrows(Group, gs.index, log, f.Log());
      if !IsQueueCommand(msg.cmd) {
        OneKind(Peer, UserID(appid, uid), old(ps.GetPeerIndex(appid, uid)), msgid, deviceId, IsGroupMessage(msg));
        ghost var rec := f.Log()[|log| + 1];
        assert f.Log() == log + [Entry(msgid, msg), rec];
        OtherKept(Group, gs.index, log, Entry(msgid, msg), rec);
        assert forall v :: (old(gs.Right(v)) ==> gs.Right(v)) && (old(gs.Known(v)) ==> gs.Known(v));
        assert forall v, w :: old(gs.Chain(v, w)) ==> gs.Chain(v, w);
      }
    }

    /** A message for a group: the same. */
    method SaveGroupMessage(appid: Int64, gid: Int64, deviceId: Int64, msg: Message)
      returns (msgid: int, prevMsgid: int)
      requires Sane() && Storable(msg) && |f.files| < MAX_BLOCKS - 1
      modifies f, gs
      ensures Sane() && (!IsQueueCommand(msg.cmd) ==> (old(Users()) ==> Users()) && (old(Valid()) ==> Valid()))
      ensures !IsQueueCommand(msg.cmd) ==> forall v ::
        && (old(ps.Right(v)) ==> ps.Right(v)) && (old(gs.Right(v)) ==> gs.Right(v))
        && (old(gs.Known(v)) ==> gs.Known(v))
      ensures var i, u := old(gs.GetGroupIndex(appid, gid)), UserID(appid, gid);
        var body, rec := Entry(msgid, msg),
          Entry(f.lastId, RecordOf(Group, u, i, msgid, deviceId, IsGroupMessage(msg)));
        && prevMsgid == i.lastMsgid && f.Log() == old(f.Log()) + [body, rec]
        && (!IsQueueCommand(msg.cmd) ==>
              forall v, w :: old(gs.Chain(v, w)) ==> gs.Chain(v, w + NewItem(Group, body, rec, u, v)))
      ensures ps.index == old(ps.index) && peerFile == old(peerFile) && groupFile == old(groupFile)
    {
      hide LogOf, BlocksOk, Renders, Replay, Linked, LastRecordId, RecordOf, Storable, FileOk, SaneIndex, IsRight,
        IsKnown, IsChain, NewItem, FileExact, GroupSavedAs;
      ghost var log := f.Log();
      msgid, prevMsgid := gs.SaveGroupMessage(appid, gid, deviceId, msg);
      FilesStayOk(log, f.Log());
      SaneGrows(Peer, ps.index, log, f.Log());
      if !IsQueueCommand(msg.cmd) {
        OneKind(Group, UserID(appid, gid), old(gs.GetGroupIndex(appid, gid)), msgid, deviceId, IsGroupMessage(msg));
        ghost var rec := f.Log()[|log| + 1];
        assert f.Log() == log + [Entry(msgid, msg), rec];
        OtherKept(Peer, ps.index, log, Entry(msgid, msg), rec);
        assert forall v :: old(ps.Right(v)) ==> ps.Right(v);
      }
    }

    /** What replication changes of this store. */
    ghost function State(): (r: Replica)
      reads this, f, ps, gs
    {
      Replica(f.files, ps.index, gs.index, f.lastId)
    }

    /** `SaveSyncMessage`: writes the message where the master has it, unless it is known, and executes it. */
    method SaveSyncMessage(e: Entry)
      requires |f.files| > 0 && f.blockNO == |f.files| - 1 && ps.f == f && gs.f == f
      modifies f, ps, gs
      ensures |f.files| > 0 && f.blockNO == |f.files| - 1 && State() == SyncEntry(old(State()), e)
      ensures unchanged(this)
      ensures old(Sane()) && Follows(old(f.blocks), e) ==>
        && Sane() && f.blocks == SyncBlocks(old(f.blocks), e)
        && (old(Users()) && Linked(Peer, f.Log()) ==> Users())
        && (old(Valid()) && LinkedBoth(f.Log()) ==> Valid())
    {
      hide LogOf, Rec, BlocksOk, Renders, Linked, Replay, Exec, IsRecord, LastRecordId, FileOk, Follows, SyncBlocks,
        SyncFiles, SaneIndex, FileExact, SyncWrites;
      ghost var was := f.blocks;
      if Sane() && Follows(was, e) {
        SyncSane(e);
        f.blocks := SyncBlocks(was, e);
      }
      var written := WriteSync(e);
      if written {
        ExecMessage(e);
      }
    }

    /** The part of `SaveSyncMessage` that writes: not what lies behind the files' end already, nor two or more
        blocks ahead. */
    method WriteSync(e: Entry) returns (written: bool)
      requires |f.files| > 0 && f.blockNO == |f.files| - 1
      modifies f`files, f`blockNO
      ensures |f.files| > 0 && f.blockNO == |f.files| - 1
      ensures (f.files, written) == SyncFiles(old(f.files), e)
      ensures SyncWrites(old(f.files), e, f.files, written)
    {
      hide Rec, FileHeader, SyncWrites;
      SyncWritesIs(f.files, e);
      var n, o := GetBlockNO(e.id), GetBlockOffset(e.id);
      if n < f.blockNO || n - f.blockNO > 1 {
        return false;
      }
      if n - f.blockNO == 1 {
        f.files := f.files + [FileHeader()];
        f.blockNO := n;
      }
      var offset := |f.files[f.blockNO]|;
      if o < offset {
        return false;
      }
      var padding := Zeros(o - offset);
      f.files := f.files[..f.blockNO] + [f.files[f.blockNO] + padding + Rec(e.msg)];
      return true;
    }

    /** `execMessage` of both storages. */
    method ExecMessage(e: Entry)
      requires ps.f == f && gs.f == f
      modifies f`lastId, ps`index, gs`index
      ensures ps.index == Exec(Peer, old(ps.index), e) && gs.index == Exec(Group, old(gs.index), e)
      ensures var record := IsRecord(Peer, e.msg) || IsRecord(Group, e.msg);
        f.lastId == if record && e.id > old(f.lastId) then e.id else old(f.lastId)
    {
      if IsRecord(Peer, e.msg) {
        var off := Off(Peer, e.msg);
        var index := ps.GetPeerIndex(off.appid, off.receiver);
        ps.SetPeerIndex(off.appid, off.receiver, Step(index, e.id, off.msgid, HasGroupFlag(e.msg.flag)));
      }
      if IsRecord(Group, e.msg) {
        var off := Off(Group, e.msg);
        var index := gs.GetGroupIndex(off.appid, off.receiver);
        gs.SetGroupIndex(off.appid, off.receiver, Step(index, e.id, off.msgid, true));
      }
    }

    /** `SaveSyncMessageBatch`: numbers the messages on from the first id. A slave that has the master's log as far
        as p, given a batch that leaves out nothing, has it as far as the batch goes; each queue it had the numbers of
        it still has; all users, or all queues, are right if they were and the master's are. */
    method SaveSyncMessageBatch(firstId: int, msgs: seq<Message>, ghost master: seq<seq<Message>>, ghost p: Place,
                                ghost t: Batch)
      requires |f.files| > 0 && f.blockNO == |f.files| - 1 && ps.f == f && gs.f == f
      modifies f, ps, gs
      ensures |f.files| > 0 && f.blockNO == |f.files| - 1 && State() == SyncBatch(old(State()), firstId, msgs)
      ensures unchanged(this)
      ensures Continues(master, p, t, firstId, msgs) && old(Sane() && f.blocks == Cut(master, p.b, p.j)) ==>
        && Sane() && f.blocks == Cut(master, After(p, t).b, After(p, t).j)
        && (forall v :: old(Counted(Peer, ps.index, f.Log(), v)) ==> Counted(Peer, ps.index, f.Log(), v))
        && (forall v :: old(Counted(Group, gs.index, f.Log(), v)) ==> Counted(Group, gs.index, f.Log(), v))
        && (old(Users()) && Linked(Peer, LogOf(master)) ==> Users())
        && (old(Valid()) && LinkedBoth(LogOf(master)) ==> Valid())
    {
      hide SyncEntry, Rec, SyncBatch, LogOf, BlocksOk, Renders, Linked, Replay, LastRecordId, FileOk, Cut, IsBatch,
        NoGap, After, SaneIndex, FileExact, Counted, BlockBytes;
      ghost var follows :=
        Sane() && Continues(master, p, t, firstId, msgs) && IsPlace(master, p) && f.blocks == Cut(master, p.b, p.j);
      if follows {
        SyncFrom(master, p, t, firstId, msgs);
        if Valid() { ValidIsImage(master, p); }
      }
      ApplyBatch(firstId, msgs);
      if follows {
        ContinuesImage(master, p, t, firstId, msgs);
        f.blocks := Cut(master, After(p, t).b, After(p, t).j);
        FilesStayOk(LogOf(Cut(master, p.b, p.j)), f.Log());
      }
    }

    /** The loop over the batch. */
    method ApplyBatch(firstId: int, msgs: seq<Message>)
      requires |f.files| > 0 && f.blockNO == |f.files| - 1 && ps.f == f && gs.f == f
      modifies f, ps, gs
      ensures |f.files| > 0 && f.blockNO == |f.files| - 1 && State() == SyncBatch(old(State()), firstId, msgs)
      ensures unchanged(this)
    {
      hide SyncEntry, Rec;
      var id := firstId;
      assert msgs[..|msgs|] == msgs;
      for k := 0 to |msgs|
        invariant |f.files| > 0 && f.blockNO == |f.files| - 1 && unchanged(this)
        invariant id == firstId + |Recs(msgs[..k])| && State() == SyncBatch(old(State()), firstId, msgs[..k])
      {
        assert msgs[..k + 1] == msgs[..k] + [msgs[k]];
        SyncBatchAppend(old(State()), firstId, msgs[..k], msgs[k]);
        RecsAppend(msgs[..k], [msgs[k]]);
        RecsOne(msgs[k]);
        var emsg := Entry(id, msgs[k]);
        id := id + |Rec(msgs[k])|;
        SaveSyncMessage(emsg);
      }
    }

    /** What a batch makes of a slave that has the master's log as far as p. */
    lemma SyncFrom(master: seq<seq<Message>>, p: Place, t: Batch, firstId: int, msgs: seq<Message>)
      requires Sane() && Continues(master, p, t, firstId, msgs) && f.blocks == Cut(master, p.b, p.j)
      ensures |f.files| > 0 && IsPlace(master, After(p, t))
      ensures var q := After(p, t); var log, r, to := LogOf(Cut(master, q.b, q.j)), SyncBatch(State(), firstId, msgs),
        Image(master, q.b, q.j);
        && r.files == to.files && SaneReplica(r, log)
        && (forall v :: Counted(Peer, ps.index, f.Log(), v) ==> Counted(Peer, r.peers, log, v))
        && (forall v :: Counted(Group, gs.index, f.Log(), v) ==> Counted(Group, r.groups, log, v))
        && (ps.index == Replay(Peer, map[], f.Log()) ==> r.peers == to.peers)
        && (State() == Image(master, p.b, p.j) ==> r == to)
    {
      hide LogOf, Rec, BlocksOk, Replay, LastRecordId, FileOk, BlockBytes, SyncBatch, SaneIndex, IdAt, Counted;
      var q := After(p, t);
      var log, from := LogOf(Cut(master, q.b, q.j)), Image(master, p.b, p.j);
      ContinuesImage(master, p, t, firstId, msgs);
      assert State().files == Render(f.blocks);
      SyncBatchSame(State(), from, firstId, msgs);
      LogIncreasing(Cut(master, q.b, q.j));
      SaneGrows(Peer, ps.index, f.Log(), log);
      SaneGrows(Group, gs.index, f.Log(), log);
      LastRecordGrows(f.Log(), log);
      BatchEntries(master, q.b, q.j, t.c, t.x, t.y);
      SyncBatchSane(State(), firstId, msgs, log);
      var r := SyncBatch(State(), firstId, msgs);
      forall v ensures Counted(Peer, ps.index, f.Log(), v) ==> Counted(Peer, r.peers, log, v) {
        CountedIff(Peer, ps.index, f.Log(), v);
        CountedIff(Peer, r.peers, log, v);
      }
      forall v ensures Counted(Group, gs.index, f.Log(), v) ==> Counted(Group, r.groups, log, v) {
        CountedIff(Group, gs.index, f.Log(), v);
        CountedIff(Group, r.groups, log, v);
      }
    }

    /** A valid slave is the image of the master's log as far as it has it. */
    lemma ValidIsImage(master: seq<seq<Message>>, p: Place)
      requires Valid() && IsPlace(master, p) && f.blocks == Cut(master, p.b, p.j)
      ensures State() == Image(master, p.b, p.j)
    {
      hide LogOf, Rec, BlocksOk, Linked, Replay, LastRecordId, FileOk, BlockBytes, SaneIndex;
      assert State().files == Render(f.blocks);
    }

    /** A following message keeps a replica sane, and its indexes right if they were. */
    lemma SyncSane(e: Entry)
      requires Sane() && Follows(f.blocks, e)
      ensures var next := SyncBlocks(f.blocks, e); var log, r := LogOf(next), SyncEntry(State(), e);
        && BlocksOk(next) && Renders(r.files, next) && |r.files| == |next| && SaneReplica(r, log)
        && (ps.index == Replay(Peer, map[], f.Log()) ==> r.peers == Replay(Peer, map[], log))
        && (gs.index == Replay(Group, map[], f.Log()) ==> r.groups == Replay(Group, map[], log))
        && (f.lastId == LastRecordId(f.Log()) ==> r.lastId == LastRecordId(log))
        && FilesOk(log)
      ensures var log := LogOf(SyncBlocks(f.blocks, e));
        && (FileExact(Peer, peerFile, f.Log(), peerMark, peerSaved) ==>
              FileExact(Peer, peerFile, log, peerMark, peerSaved))
        && (FileExact(Group, groupFile, f.Log(), groupMark, groupSaved) ==>
              FileExact(Group, groupFile, log, groupMark, groupSaved))
    {
      hide LogOf, Rec, BlockOk, Linked, Exec, IsRecord, LastRecordId, FileOk, Follows, SyncBlocks, SyncFiles, Replay,
        SaneIndex, FileExact, FilesOk;
      SyncFollows(f.files, f.blocks, e);
      var next := SyncBlocks(f.blocks, e);
      LogIncreasing(next);
      FilesStayOk(f.Log(), LogOf(next));
      if SyncFiles(f.files, e).1 {
        ExecLast(Peer, f.Log(), e);
        ExecLast(Group, f.Log(), e);
        LastRecordLast(f.Log(), e);
        SaneGrows(Peer, ps.index, f.Log(), LogOf(next));
        SaneGrows(Group, gs.index, f.Log(), LogOf(next));
        SaneExec(Peer, ps.index, LogOf(next), e);
        SaneExec(Group, gs.index, LogOf(next), e);
      }
    }

    /** The index files still tell of an earlier state when the log has grown. */
    lemma FilesStayOk(was: seq<Entry>, log: seq<Entry>)
      requires was <= log && FilesOk(was)
      ensures FilesOk(log)
      ensures FileExact(Peer, peerFile, was, peerMark, peerSaved) ==>
        FileExact(Peer, peerFile, log, peerMark, peerSaved)
      ensures FileExact(Group, groupFile, was, groupMark, groupSaved) ==>
        FileExact(Group, groupFile, log, groupMark, groupSaved)
    {
      hide Lists, IndexBytes, Replay, SaneIndex;
      if peerFile.Some? { assert log[..peerMark.n] == was[..peerMark.n]; }
      if groupFile.Some? { assert log[..groupMark.n] == was[..groupMark.n]; }
    }
  }

  lemma OneKind(kind: Kind, u: UserID, i: UserIndex, msgid: int, deviceId: Int64, inGroup: bool)
    ensures forall other: Kind :: other != kind ==> !IsRecord(other, RecordOf(kind, u, i, msgid, deviceId, inGroup))
  {
  }

  lemma LastRecordGrows(log: seq<Entry>, longer: seq<Entry>)
    requires log <= longer && Increasing(longer)
    ensures LastRecordId(log) <= LastRecordId(longer)
  {
    hide Increasing, LastIdOf, LastRecordId;
    PrefixIncreasing(longer, |log|);
    assert longer[..|log|] == log;
    LastOfKinds(log);
    LastOfKinds(longer);
    LastIdOfPrefix(Peer, longer, |log|);
    LastIdOfPrefix(Group, longer, |log|);
  }

  // ---------- the last id after a recovery ----------

  ghost function FinalId(blocks: seq<seq<Message>>, peers: bool, groups: bool, from: int): (r: int)
    requires |blocks| > 0 && RepairPlace(blocks, GroupsFrom(blocks, peers, from)) <= |LogOf(blocks)|
  {
    var log, next := LogOf(blocks), GroupsFrom(blocks, peers, from);
    var id := if groups then Max(next, LastIdOf(Group, log[RepairPlace(blocks, next)..])) else next;
    var id2 := if !peers then Max(id, LastIdOf(Peer, log)) else id;
    if !groups then Max(id2, LastIdOf(Group, log)) else id2
  }

  /** It is never past the last record. */
  lemma FinalBound(blocks: seq<seq<Message>>, peers: bool, groups: bool, id: int)
    requires BlocksOk(blocks) && IsStart(LogOf(blocks), id) && id <= LastRecordId(LogOf(blocks))
    ensures RepairPlace(blocks, GroupsFrom(blocks, peers, id)) <= |LogOf(blocks)|
    ensures 0 <= FinalId(blocks, peers, groups, id) <= LastRecordId(LogOf(blocks))
  {
    hide LogOf, BlockOk, Rec, LastIdOf, PlaceOf, PeerResume, RepairPlace, Increasing, LastRecordId;
    var log := LogOf(blocks);
    LogIncreasing(blocks);
    PlacesExist(blocks, peers, id);
    LastOfKinds(log);
    LastIdBelow(Peer, log);
    LastIdBelow(Group, log);
    TailBound(Peer, log, PeerResume(blocks, id));
    TailBound(Group, log, RepairPlace(blocks, GroupsFrom(blocks, peers, id)));
  }

  /** With both indexes right, from files that were, it is the id of the log's last record. */
  lemma LastIdRecovered(blocks: seq<seq<Message>>, peers: Option<nat>, groups: Option<nat>)
    requires BlocksOk(blocks) && (peers.Some? ==> peers.value <= |LogOf(blocks)|)
    requires groups.Some? ==> groups.value <= |LogOf(blocks)|
    requires var id := ExactId(LogOf(blocks), peers, groups);
      && IsStart(LogOf(blocks), id) && PeerResume(blocks, id) <= |LogOf(blocks)|
      && RepairPlace(blocks, GroupsFrom(blocks, peers.Some?, id)) <= |LogOf(blocks)|
      && Recovers(Peer, LogOf(blocks), peers, PeerResume(blocks, id))
      && Recovers(Group, LogOf(blocks), groups, RepairPlace(blocks, GroupsFrom(blocks, peers.Some?, id)))
    ensures FinalId(blocks, peers.Some?, groups.Some?, ExactId(LogOf(blocks), peers, groups))
      == LastRecordId(LogOf(blocks))
  {
    hide LogOf, BlockOk, Rec, LastIdOf, NoRecords, PlaceOf, PeerResume, RepairPlace, Increasing, LastRecordId, Between;
    var log, id := LogOf(blocks), ExactId(LogOf(blocks), peers, groups);
    LogIncreasing(blocks);
    LastOfKinds(log);
    LastIdBelow(Peer, log);
    LastIdBelow(Group, log);
    if peers.Some? { LastIdOfPrefix(Peer, log, peers.value); }
    if groups.Some? { LastIdOfPrefix(Group, log, groups.value); }
    FinalBound(blocks, peers.Some?, groups.Some?, id);
    if peers.Some? { LastIdOfParts(Peer, log, peers.value, PeerResume(blocks, id), id); }
    if groups.Some? {
      var next := GroupsFrom(blocks, peers.Some?, id);
      LastIdOfParts(Group, log, groups.value, RepairPlace(blocks, next), next);
    }
  }

  /** The last id that files of right indexes hand to recovery. */
  function ExactId(log: seq<Entry>, peers: Option<nat>, groups: Option<nat>): (r: int)
    requires (peers.Some? ==> peers.value <= |log|) && (groups.Some? ==> groups.value <= |log|)
  {
    Max(if peers.Some? then LastIdOf(Peer, log[..peers.value]) else 0,
        if groups.Some? then LastIdOf(Group, log[..groups.value]) else 0)
  }

  lemma LastIdAfter(blocks: seq<seq<Message>>, peers: Index, groups: Index, pf: Option<seq<Byte>>,
                    gf: Option<seq<Byte>>, pm: Mark, gm: Mark, pi: Index, gi: Index)
    requires BlocksOk(blocks) && FileOk(Peer, pf, LogOf(blocks), pm, pi) && FileOk(Group, gf, LogOf(blocks), gm, gi)
    requires var log, id := LogOf(blocks), Max(FileId(pf, pm, pi), FileId(gf, gm, gi));
      && IndexAfter(Peer, peers, log, PeerResume(blocks, id), pf, pm, pi)
      && IndexAfter(Group, groups, log, RepairPlace(blocks, GroupsFrom(blocks, pf.Some?, id)), gf, gm, gi)
    ensures var log, id := LogOf(blocks), Max(FileId(pf, pm, pi), FileId(gf, gm, gi));
      peers == Replay(Peer, map[], log) && groups == Replay(Group, map[], log) ==>
        (FileExact(Peer, pf, log, pm, pi) && FileExact(Group, gf, log, gm, gi) ==>
           FinalId(blocks, pf.Some?, gf.Some?, id) == LastRecordId(log))
  {
    hide LogOf, BlockOk, Replay, Lists, IndexBytes, SaneIndex, QueueAfter, PeerResume, RepairPlace, FinalId, IsStart,
      NoRecords, LastIdOf, Increasing, FileId, LastRecordId;
    var log := LogOf(blocks);
    LogIncreasing(blocks);
    FileIdIs(Peer, pf, log, pm, pi);
    FileIdIs(Group, gf, log, gm, gi);
    if peers == Replay(Peer, map[], log) && groups == Replay(Group, map[], log)
      && FileExact(Peer, pf, log, pm, pi) && FileExact(Group, gf, log, gm, gi) {
      NoFileId(pf, pm, pi);
      NoFileId(gf, gm, gi);
      assert ExactId(log, MarkOf(pf, pm), MarkOf(gf, gm)) == Max(FileId(pf, pm, pi), FileId(gf, gm, gi));
      LastIdRecovered(blocks, MarkOf(pf, pm), MarkOf(gf, gm));
    }
  }

  lemma NoFileId(file: Option<seq<Byte>>, mark: Mark, saved: Index)
    ensures file.None? ==> FileId(file, mark, saved) == 0
  {
  }

  lemma LastIdOfPrefix(kind: Kind, log: seq<Entry>, n: nat)
    requires Increasing(log) && n <= |log|
    ensures LastIdOf(kind, log[..n]) <= LastIdOf(kind, log)
  {
    hide Rec, LastIdOf, IsRecord;
    SuffixIncreasing(log, n);
    PrefixIncreasing(log, n);
    assert log == log[..n] + log[n..];
    LastIdConcat(kind, log[..n], log[n..]);
    LastIdBelow(kind, log[..n]);
    LastIdBelow(kind, log[n..]);
    if n > 0 && n < |log| && LastIdOf(kind, log[n..]) > 0 {
      LastIdLower(kind, log[n..]);
      assert log[n - 1].id + |Rec(log[n - 1].msg)| <= log[n].id;
    }
  }

  lemma {:induction false} LastIdLower(kind: Kind, log: seq<Entry>)
    requires Increasing(log) && LastIdOf(kind, log) > 0
    ensures log != [] && log[0].id <= LastIdOf(kind, log)
  {
    hide Rec, IsRecord, Increasing;
    var n := |log| - 1;
    IncreasingInit(log);
    if n > 0 {
      IdsOrdered(log, 0, n);
      if !IsRecord(kind, log[n].msg) { LastIdLower(kind, log[..n]); }
    }
  }

  lemma IdsOrdered(log: seq<Entry>, i: nat, j: nat)
    requires Increasing(log) && i < j < |log|
    ensures log[i].id < log[j].id
  {
    hide Rec;
    assert log[i].id + |Rec(log[i].msg)| <= log[j].id;
  }

  // ---------- when a restart recovers ----------

  /** From a file of right users that had seen a record, or a groups' file that had, the users' index is recovered:
      also when the server stopped between writing the two files, and whatever the numbers in the groups' file are. */
  lemma FlushedPeersRecover(blocks: seq<seq<Message>>, a: nat, gid: int)
    requires BlocksOk(blocks) && a <= |LogOf(blocks)| && IsId(Group, LogOf(blocks)[..a], gid)
    requires Max(LastIdOf(Peer, LogOf(blocks)[..a]), gid) > 0
    ensures var log := LogOf(blocks); var at := PeerResume(blocks, Max(LastIdOf(Peer, log[..a]), gid));
      at <= |log| && Recovers(Peer, log, Some(a), at)
  {
    hide LogOf, Rec, BlockOk, PlaceOf, LastIdOf, IsRecord, Increasing, NoRecords;
    var log := LogOf(blocks);
    var id := Max(LastIdOf(Peer, log[..a]), gid);
    LogIncreasing(blocks);
    LastIdPlace(Peer, log, a);
    if gid != 0 {
      var i :| 0 <= i < |log[..a]| && log[..a][i].id == gid && IsRecord(Group, log[..a][i].msg);
      PlaceInLog(log, i);
    }
    NoneBehind(Peer, log, a, PeerResume(blocks, id));
  }

  /** So after every orderly stop, however often the server restarts and whatever becomes of its groups. */
  lemma CleanPeersRecover(blocks: seq<seq<Message>>, gid: int)
    requires BlocksOk(blocks) && IsId(Group, LogOf(blocks), gid)
    ensures var log := LogOf(blocks); var at := PeerResume(blocks, Max(LastIdOf(Peer, log), gid));
      at <= |log| && Recovers(Peer, log, Some(|log|), at)
  {
    hide LogOf, BlockOk, LastIdOf, IsRecord, Increasing, PlaceOf, IsRecordId;
    var log := LogOf(blocks);
    assert log[..|log|] == log;
    LogIncreasing(blocks);
    IdIsStart(Group, log, gid);
    LastIdBelow(Peer, log);
    if Max(LastIdOf(Peer, log), gid) > 0 {
      FlushedPeersRecover(blocks, |log|, gid);
    } else {
      ResumeInLog(blocks, 0);
      NoneBefore(Peer, log, |log|);
      EmptyFilesRecover(blocks, |log|);
      assert log[..|blocks[0]|] <= log;
    }
  }

  /** No record lies between the one with the last id, or a later one, and the end of what it is the last of. */
  lemma NoneBehind(kind: Kind, log: seq<Entry>, a: nat, at: nat)
    requires Increasing(log) && 0 < at <= a <= |log| && LastIdOf(kind, log[..a]) <= log[at - 1].id
    ensures NoRecords(kind, log[at..a])
  {
    hide Rec, LastIdOf, IsRecord;
    PrefixIncreasing(log, a);
    forall i | 0 <= i < a - at ensures !IsRecord(kind, log[at..a][i].msg) {
      assert log[at - 1].id + |Rec(log[at - 1].msg)| <= log[at + i].id;
      if IsRecord(kind, log[at + i].msg) { LastIdCovers(kind, log[..a], at + i); }
    }
  }

  /** From index files without any record, it is recovered exactly when block 0 holds no user's record. */
  lemma EmptyFilesRecover(blocks: seq<seq<Message>>, a: nat)
    requires BlocksOk(blocks) && a <= |LogOf(blocks)| && LastIdOf(Peer, LogOf(blocks)[..a]) == 0
    ensures PeerResume(blocks, 0) == |blocks[0]| <= |LogOf(blocks)|
    ensures Recovers(Peer, LogOf(blocks), Some(a), PeerResume(blocks, 0))
      <==> NoRecords(Peer, LogOf(blocks)[..|blocks[0]|])
  {
    hide LogOf, Rec, BlockOk, LastIdOf, IsRecord;
    var log := LogOf(blocks);
    LogIncreasing(blocks);
    ResumeInLog(blocks, 0);
    NoneBefore(Peer, log, a);
    BetweenIff(Peer, log, a, |blocks[0]|);
  }

  lemma NoneBefore(kind: Kind, log: seq<Entry>, a: nat)
    requires Increasing(log) && a <= |log| && LastIdOf(kind, log[..a]) <= 0
    ensures NoRecords(kind, log[..a])
  {
    hide Rec, LastIdOf, IsRecord;
    PrefixIncreasing(log, a);
    forall i | 0 <= i < a ensures !IsRecord(kind, log[..a][i].msg) {
      if IsRecord(kind, log[i].msg) {
        assert HEADER_SIZE <= log[i].id;
        LastIdCovers(kind, log[..a], i);
      }
    }
  }

  /** With no record in the first part, what lies between two places tells about the second. */
  lemma BetweenIff(kind: Kind, log: seq<Entry>, a: nat, b: nat)
    requires a <= |log| && b <= |log| && NoRecords(kind, log[..a])
    ensures NoRecords(kind, Between(log, a, b)) <==> NoRecords(kind, log[..b])
  {
    hide IsRecord;
    if a <= b {
      assert log[..b] == log[..a] + log[a..b];
    } else {
      assert log[..a] == log[..b] + log[b..a];
    }
  }

  lemma LastIdIsStart(kind: Kind, log: seq<Entry>)
    requires Increasing(log)
    ensures IsStart(log, LastIdOf(kind, log))
  {
    hide Rec, IsRecord, Increasing, LastIdOf, PlaceOf;
    LastIdBelow(kind, log);
    if LastIdOf(kind, log) != 0 { LastIdRecord(kind, log); }
  }

  /** Where the repairs start after an orderly stop: at the last record, whatever its kind. */
  lemma CleanStart(blocks: seq<seq<Message>>)
    requires BlocksOk(blocks)
    ensures var log := LogOf(blocks); var id := Max(LastIdOf(Peer, log), LastIdOf(Group, log));
      && IsStart(log, id) && GroupsFrom(blocks, true, id) == id && RepairPlace(blocks, id) <= |log|
      && 0 <= LastIdOf(Peer, log) && 0 <= LastIdOf(Group, log)
  {
    hide LogOf, Rec, BlockOk, LastIdOf, PlaceOf, Increasing, PeerResume, RepairPlace;
    var log := LogOf(blocks);
    LogIncreasing(blocks);
    LastIdIsStart(Peer, log);
    LastIdIsStart(Group, log);
    var id := Max(LastIdOf(Peer, log), LastIdOf(Group, log));
    PlacesExist(blocks, true, id);
    TailBound(Peer, log, PeerResume(blocks, id));
  }

  /** After an orderly stop, the groups' index is recovered exactly when the last record of the log is a
      user's, or there is none of a group: a group's record at the very end is counted twice. */
  lemma CleanRestartIff(blocks: seq<seq<Message>>)
    requires BlocksOk(blocks)
    ensures var log := LogOf(blocks); var id := Max(LastIdOf(Peer, log), LastIdOf(Group, log));
      var at := RepairPlace(blocks, GroupsFrom(blocks, true, id));
      at <= |log| && (Recovers(Group, log, Some(|log|), at) <==> LastIdOf(Group, log) <= LastIdOf(Peer, log))
  {
    hide LogOf, Rec, BlockOk, LastIdOf, IsRecord, PlaceOf, Increasing;
    var log, n := LogOf(blocks), |LogOf(blocks)|;
    CleanStart(blocks);
    LogIncreasing(blocks);
    var at := RepairPlace(blocks, Max(LastIdOf(Peer, log), LastIdOf(Group, log)));
    if LastIdOf(Group, log) > LastIdOf(Peer, log) {
      LastIdRecord(Group, log);
      assert log[at] == log[at..n][0] && log[at] in log[at..n];
    } else {
      NoGroupPast(log, at);
    }
  }

  /** Otherwise the last group record is executed a second time: the group's messages are numbered one too high. */
  lemma CountedTwice(blocks: seq<seq<Message>>) returns (at: nat)
    requires BlocksOk(blocks) && LastIdOf(Group, LogOf(blocks)) > LastIdOf(Peer, LogOf(blocks))
    ensures var log := LogOf(blocks);
      && at == RepairPlace(blocks, GroupsFrom(blocks, true, LastIdOf(Group, log))) < |log|
      && IsRecord(Group, log[at].msg)
    ensures var log := LogOf(blocks); var u := Owner(Group, log[at].msg);
      Get(Replay(Group, Replay(Group, map[], log), log[at..]), u).lastSeqId == |Queue(Group, log, u)| + 1
  {
    hide LogOf, Rec, BlockOk, LastIdOf, IsRecord, Owner, PlaceOf, Increasing, Queue, Replay;
    var log, n := LogOf(blocks), |LogOf(blocks)|;
    CleanStart(blocks);
    LogIncreasing(blocks);
    LastIdRecord(Group, log);
    at := PlaceOf(log, LastIdOf(Group, log));
    assert log[..n] == log;
    var e, rest := log[at], log[at + 1..];
    var u := Owner(Group, e.msg);
    assert log[at..] == [e] + rest;
    NoneBehind(Group, log, n, at + 1);
    assert log[at + 1..n] == rest;
    QueueConcat(Group, [e], rest, u);
    OneRecordQueue(Group, e);
    EmptyQueue(Group, rest, u);
    CountOf(Group, map[], log, u);
    CountOf(Group, Replay(Group, map[], log), log[at..], u);
  }

  lemma OneRecordQueue(kind: Kind, e: Entry)
    requires IsRecord(kind, e.msg)
    ensures |Queue(kind, [e], Owner(kind, e.msg))| == 1
  {
    assert [e][..0] == [];
    assert Queue(kind, [e][..0], Owner(kind, e.msg)) == [];
  }

  lemma EmptyQueue(kind: Kind, log: seq<Entry>, u: UserID)
    requires NoRecords(kind, log)
    ensures Queue(kind, log, u) == []
  {
    hide IsRecord, Queue, Replay;
    ReplayNoRecords(kind, map[], log);
    CountOf(kind, map[], log, u);
  }

  /** A message with the record saved behind it. */
  function OneSave(cmd: int): (r: seq<Message>)
  {
    var m := Message(MSG_GROUP_IM, 0, 1, 0, IM(1, 2, 0, 0, []));
    [m, Message(cmd, 0, 0, MESSAGE_FLAG_GROUP, Offline4(Offline(7, 2, HEADER_SIZE, 9, 1, 0, 0, 0)))]
  }

  lemma OneSaveOk(cmd: int)
    requires cmd == MSG_OFFLINE_V4 || cmd == MSG_GROUP_OFFLINE
    ensures BlocksOk([OneSave(cmd)]) && LinkedBoth(LogOf([OneSave(cmd)]))
    ensures LogOf([OneSave(cmd)]) == [Entry(HEADER_SIZE, OneSave(cmd)[0]), Entry(76, OneSave(cmd)[1])]
  {
    hide PutUint, GetUint, Put64, Put32, FileHeader, Put64s;
    var ms := OneSave(cmd);
    assert |Rec(ms[0])| == 44 && |Rec(ms[1])| == 84;
    assert Storable(ms[0]) && Storable(ms[1]);
    hide Rec, Storable;
    assert ms == [ms[0]] + [ms[1]];
    RecsOne(ms[0]);
    RecsOne(ms[1]);
    RecsAppend([ms[0]], [ms[1]]);
    EntriesAppend(HEADER_SIZE, [ms[0]], [ms[1]]);
    EntriesOne(HEADER_SIZE, ms[0]);
    EntriesOne(76, ms[1]);
    assert [ms][..0] == [];
    assert LogOf([ms][..0]) == [];
    assert LogOf([ms]) == [] + BlockEntries(0, ms);
    hide LogOf;
    var log := [Entry(HEADER_SIZE, ms[0]), Entry(76, ms[1])];
    assert LogOf([ms]) == log;
    OneSaveLinked(Peer, cmd);
    OneSaveLinked(Group, cmd);
    assert LinkedBoth(log);
  }

  lemma OneSaveLinked(kind: Kind, cmd: int)
    requires cmd == MSG_OFFLINE_V4 || cmd == MSG_GROUP_OFFLINE
    ensures Linked(kind, [Entry(HEADER_SIZE, OneSave(cmd)[0]), Entry(76, OneSave(cmd)[1])])
  {
    var log := [Entry(HEADER_SIZE, OneSave(cmd)[0]), Entry(76, OneSave(cmd)[1])];
    var u := UserID(7, 2);
    assert log[..1] == [log[0]] && log[..1][..0] == [];
    assert Queue(kind, log[..1][..0], u) == [];
    assert Queue(kind, log[..1], u) == [];
    assert IndexOf([]) == EMPTY_INDEX;
    assert RecordOk(kind, log, 0) && RecordOk(kind, log, 1);
  }

  /** One group message, an orderly stop, a start: the message is counted twice. */
  lemma GroupRestartFails()
    ensures var blocks := [OneSave(MSG_GROUP_OFFLINE)]; var log := LogOf(blocks);
      var at := RepairPlace(blocks, GroupsFrom(blocks, true, 76));
      && BlocksOk(blocks) && LastIdOf(Peer, log) == 0 && LastIdOf(Group, log) == 76
      && at <= |log| && !Recovers(Group, log, Some(|log|), at)
      && Get(Replay(Group, Replay(Group, map[], log), log[at..]), UserID(7, 2)).lastSeqId == 2
  {
    hide LogOf, Rec, BlockOk, PlaceOf, Recovers, PeerResume, RepairPlace, GroupsFrom, LinkedBoth, LastIdOf, OneSave,
      Replay, Queue;
    var blocks := [OneSave(MSG_GROUP_OFFLINE)];
    OneSaveOk(MSG_GROUP_OFFLINE);
    CleanRestartIff(blocks);
    OneSaveLastIds(LogOf(blocks));
    var at := CountedTwice(blocks);
    OneSaveQueue(LogOf(blocks), at);
  }

  lemma OneSaveQueue(log: seq<Entry>, at: nat)
    requires log == [Entry(HEADER_SIZE, OneSave(MSG_GROUP_OFFLINE)[0]), Entry(76, OneSave(MSG_GROUP_OFFLINE)[1])]
    requires at < 2 && IsRecord(Group, log[at].msg)
    ensures Owner(Group, log[at].msg) == UserID(7, 2) && |Queue(Group, log, UserID(7, 2))| == 1
  {
    hide Queue;
    assert at == 1;
    QueueConcat(Group, [log[0]], [log[1]], UserID(7, 2));
    assert [log[0]] + [log[1]] == log;
    EmptyQueue(Group, [log[0]], UserID(7, 2));
    OneRecordQueue(Group, log[1]);
  }

  lemma OneSaveLastIds(log: seq<Entry>)
    requires log == [Entry(HEADER_SIZE, OneSave(MSG_GROUP_OFFLINE)[0]), Entry(76, OneSave(MSG_GROUP_OFFLINE)[1])]
    ensures LastIdOf(Group, log) == 76 && LastIdOf(Peer, log) == 0
  {
    assert log[..1] == [log[0]] && log[..1][..0] == [];
    assert LastIdOf(Peer, log) == LastIdOf(Peer, log[..1]) == LastIdOf(Peer, log[..1][..0]) == 0;
  }

  /** Index files written before the first message, then one message and a crash: it is not found again. */
  lemma EmptyFilesLose()
    ensures var blocks := [OneSave(MSG_OFFLINE_V4)]; var log := LogOf(blocks);
      && BlocksOk(blocks) && LastIdOf(Peer, log[..0]) == LastIdOf(Group, log[..0]) == 0
      && PeerResume(blocks, 0) <= |log| && !Recovers(Peer, log, Some(0), PeerResume(blocks, 0))
  {
    var blocks := [OneSave(MSG_OFFLINE_V4)];
    OneSaveOk(MSG_OFFLINE_V4);
    var log := LogOf(blocks);
    assert LastIdOf(Peer, log[..0]) == LastIdOf(Group, log[..0]) == 0;
    EmptyFilesRecover(blocks, 0);
    assert log[..2][1] in log[..2] && IsRecord(Peer, log[1].msg);
  }

  /** A tail shows no later id than the whole. */
  lemma TailBound(kind: Kind, log: seq<Entry>, at: nat)
    requires Increasing(log) && at <= |log|
    ensures LastIdOf(kind, log[at..]) <= LastIdOf(kind, log)
  {
    hide LastIdOf, Rec, Increasing;
    SuffixIncreasing(log, at);
    PrefixIncreasing(log, at);
    LastIdBelow(kind, log[at..]);
    LastIdBelow(kind, log[..at]);
    LastIdConcat(kind, log[..at], log[at..]);
    assert log == log[..at] + log[at..];
  }

  lemma {:induction false} LastIdRecord(kind: Kind, log: seq<Entry>)
    requires Increasing(log) && LastIdOf(kind, log) > 0
    ensures var i := PlaceOf(log, LastIdOf(kind, log)); i < |log| && IsRecord(kind, log[i].msg)
    decreases |log|
  {
    hide Rec, IsRecord, Increasing, PlaceOf;
    var n := |log| - 1;
    IncreasingInit(log);
    if IsRecord(kind, log[n].msg) {
      PlaceInLog(log, n);
    } else {
      LastIdRecord(kind, log[..n]);
      var i := PlaceOf(log[..n], LastIdOf(kind, log));
      PlaceInLog(log, i);
    }
  }

  lemma NoGroupPast(log: seq<Entry>, at: nat)
    requires Increasing(log) && at <= |log| && LastIdOf(Group, log) <= LastIdOf(Peer, log)
    requires LastIdOf(Peer, log) > 0 ==> at == PlaceOf(log, LastIdOf(Peer, log))
    ensures NoRecords(Group, log[at..|log|])
  {
    hide Rec, IsRecord, PlaceOf, LastIdOf, Increasing;
    forall i | at <= i < |log| ensures !IsRecord(Group, log[i].msg) {
      NotBothKinds(log[i].msg);
      PlaceInLog(log, i);
      if IsRecord(Group, log[i].msg) {
        LastIdCovers(Group, log, i);
        LastIdRecord(Peer, log);
        if at < i { IdsOrdered(log, at, i); }
      }
    }
    forall e | e in log[at..|log|] ensures !IsRecord(Group, e.msg) {
      var i :| 0 <= i < |log[at..|log|]| && log[at..|log|][i] == e;
      assert e == log[at + i];
    }
  }

  lemma NotBothKinds(m: Message) ensures !(IsRecord(Peer, m) && IsRecord(Group, m)) {}
}
