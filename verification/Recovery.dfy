/** Rebuilding the in-memory indexes after a restart: replay from the block files, and the index files. */
module Recovery {
  import opened Bytes
  import opened Protocol
  import opened StorageFiles
  import opened Queues
  import opened WireFormat

  /** What recovery carries along: the index of one kind of queue, and the shared `last_id`. */
  datatype Recovered = Recovered(index: Index, lastId: int)

  /** Executes one entry as the rebuild loops do; `skip` leaves out the record at the saved last id. */
  function ExecNext(kind: Kind, skip: bool, st: Recovered, e: Entry): (r: Recovered) {
    if skip && e.id == st.lastId then st
    else Recovered(Exec(kind, st.index, e), if IsRecord(kind, e.msg) && e.id > st.lastId then e.id else st.lastId)
  }

  function ExecAll(kind: Kind, skip: bool, st: Recovered, es: seq<Entry>): (r: Recovered) {
    if es == [] then st else ExecNext(kind, skip, ExecAll(kind, skip, st, es[..|es| - 1]), es[|es| - 1])
  }

  /** The id of the last record of one kind; 0 if there is none. */
  function LastIdOf(kind: Kind, log: seq<Entry>): (r: int) {
    if log == [] then 0 else
    var e := log[|log| - 1];
    if IsRecord(kind, e.msg) then e.id else LastIdOf(kind, log[..|log| - 1])
  }

  lemma {:induction false} ExecAllConcat(kind: Kind, skip: bool, st: Recovered, front: seq<Entry>, back: seq<Entry>)
    ensures ExecAll(kind, skip, st, front + back) == ExecAll(kind, skip, ExecAll(kind, skip, st, front), back)
  {
    hide ExecNext;
    if back == [] {
      assert front + back == front;
    } else {
      var n, all := |back| - 1, front + back;
      assert all[..|all| - 1] == front + back[..n] && all[|all| - 1] == back[n];
      ExecAllConcat(kind, skip, st, front, back[..n]);
    }
  }

  lemma ExecAllOne(kind: Kind, skip: bool, st: Recovered, e: Entry)
    ensures ExecAll(kind, skip, st, [e]) == ExecNext(kind, skip, st, e)
  {
    hide ExecNext;
    assert [e][..0] == [];
    assert ExecAll(kind, skip, st, [e][..0]) == st;
  }

  /** Executing what lies past the last id is plain replay. */
  lemma {:induction false} ExecAllReplay(kind: Kind, skip: bool, st: Recovered, es: seq<Entry>)
    requires 0 <= st.lastId && Increasing(es) && (skip ==> forall e :: e in es ==> e.id > st.lastId)
    ensures ExecAll(kind, skip, st, es) == Recovered(Replay(kind, st.index, es), Max(st.lastId, LastIdOf(kind, es)))
  {
    hide Rec, Exec, IsRecord, Increasing;
    if es != [] {
      var n := |es| - 1;
      var init := es[..n];
      IncreasingInit(es);
      ExecAllReplay(kind, skip, st, init);
      LastIdBelow(kind, init);
      assert es[n] in es;
    }
  }

  lemma IncreasingInit(es: seq<Entry>)
    requires Increasing(es) && es != []
    ensures var n := |es| - 1;
      Increasing(es[..n]) && HEADER_SIZE <= es[n].id && (n > 0 ==> es[..n][n - 1].id < es[n].id)
  {
    hide Rec;
    var n := |es| - 1;
    if n > 0 { assert es[n - 1].id + |Rec(es[n - 1].msg)| <= es[n].id; }
  }

  lemma {:induction false} LastIdBelow(kind: Kind, log: seq<Entry>)
    requires Increasing(log)
    ensures 0 <= LastIdOf(kind, log) <= if log == [] then 0 else log[|log| - 1].id
  {
    hide Rec, IsRecord;
    if log != [] {
      var n := |log| - 1;
      LastIdBelow(kind, log[..n]);
      assert HEADER_SIZE <= log[n].id;
      if n > 0 { assert log[n - 1].id + |Rec(log[n - 1].msg)| <= log[n].id; }
    }
  }

  // ---------- when a checkpoint and a replayed tail give the whole ----------

  predicate NoRecords(kind: Kind, log: seq<Entry>) { forall e :: e in log ==> !IsRecord(kind, e.msg) }

  /** A checkpoint of the first `a` entries, continued by replaying from entry j on, is the replay of the
      whole log exactly when no record lies between a and j: none is left out, none is counted twice. */
  lemma CheckpointReplayIff(kind: Kind, log: seq<Entry>, a: nat, j: nat)
    requires a <= |log| && j <= |log|
    ensures Replay(kind, Replay(kind, map[], log[..a]), log[j..]) == Replay(kind, map[], log)
      <==> NoRecords(kind, log[Min(a, j)..Max(a, j)])
  {
    hide Replay, Queue, IsRecord;
    var lo, hi := Min(a, j), Max(a, j);
    var between := log[lo..hi];
    var got := Replay(kind, Replay(kind, map[], log[..a]), log[j..]);
    assert log == log[..lo] + (between + log[hi..]);
    assert log[..a] == if a == lo then log[..lo] else log[..lo] + between;
    assert log[j..] == if j == hi then log[hi..] else between + log[hi..];
    ReplayConcat(kind, map[], log[..lo], between + log[hi..]);
    var base := Replay(kind, map[], log[..lo]);
    ReplayConcat(kind, base, between, log[hi..]);
    ReplayConcat(kind, map[], log[..lo], between);
    var mid := Replay(kind, map[], log[..a]);
    ReplayConcat(kind, mid, between, log[hi..]);
    if NoRecords(kind, between) {
      ReplayNoRecords(kind, base, between);
      ReplayNoRecords(kind, mid, between);
    } else {
      var i :| 0 <= i < |between| && IsRecord(kind, between[i].msg);
      var u := Owner(kind, between[i].msg);
      QueueOfRecord(kind, between, i);
      CountOf(kind, map[], log, u);
      CountOf(kind, map[], log[..a], u);
      CountOf(kind, mid, log[j..], u);
      QueueConcat(kind, log[..lo], between + log[hi..], u);
      QueueConcat(kind, between, log[hi..], u);
      QueueConcat(kind, log[..lo], between, u);
    }
  }

  lemma CountOf(kind: Kind, index: Index, log: seq<Entry>, u: UserID)
    ensures Get(Replay(kind, index, log), u).lastSeqId == Get(index, u).lastSeqId + |Queue(kind, log, u)|
  {
    hide Replay, Queue, Advance;
    ReplayQueue(kind, index, log, u);
    AdvanceSeq(Get(index, u), Queue(kind, log, u));
  }

  // ---------- the rebuild loop over one block file ----------

  /** The loop shared by the create and repair functions of both storages: executes a block file's records
      from position `start` on, until one cannot be read. Of a tail that starts with such a record, nothing is
      executed. */
  method ExecFile(kind: Kind, skip: bool, st: Recovered, file: seq<Byte>, block: nat, start: nat,
                  ghost ms: seq<Message>, ghost from: nat, ghost tail: seq<Byte>) returns (r: Recovered)
    requires BlockOk(ms) && file == BlockBytes(ms) + tail && ReadMessage(tail) == None && from <= |ms|
    requires start == HEADER_SIZE + |Recs(ms[..from])| || (start == 0 && from == |ms|)
    ensures r == ExecAll(kind, skip, st, BlockEntries(block, ms)[from..])
  {
    hide Recs, Rec, EntriesFrom, ReadMessage, Storable, FileHeader, BlockBytes, BlockOk, Exec, IsRecord, ExecAll;
    r := st;
    ExecNone(kind, skip, st, BlockEntries(block, ms), from);
    if start == 0 {
      var m := ReadMessage(file[0..]);
      HeaderIsNoRecord(Recs(ms) + tail);
      assert file[0..] == FileHeader() + (Recs(ms) + tail) by { BlockIsHeaderAndRecs(ms); }
      return;
    }
    RestOfFile(block, ms, from, tail);
    var pos := start;
    ghost var es, k := BlockEntries(block, ms), from;
    while true
      invariant from <= k <= |ms| && pos == HEADER_SIZE + |Recs(ms[..k])| <= |file|
      invariant r == ExecAll(kind, skip, st, es[from..k])
      decreases |ms| - k
    {
      RestOfFile(block, ms, k, tail);
      var m := ReadMessage(file[pos..]);
      if m.None? {
        break;
      }
      var msgid := GetMsgId(block, pos);
      if !(skip && msgid == r.lastId) {
        r := Recovered(Exec(kind, r.index, Entry(msgid, m.value.msg)),
                       if IsRecord(kind, m.value.msg) && msgid > r.lastId then msgid else r.lastId);
      }
      pos := pos + m.value.size;
      ExecOneMore(kind, skip, st, es, from, k);
      k := k + 1;
    }
    assert es[from..|ms|] == es[from..];
  }

  lemma ExecNone(kind: Kind, skip: bool, st: Recovered, es: seq<Entry>, from: nat)
    requires from <= |es|
    ensures ExecAll(kind, skip, st, es[from..from]) == st && es[|es|..] == es[|es|..|es|]
  {
  }

  lemma ExecOneMore(kind: Kind, skip: bool, st: Recovered, es: seq<Entry>, from: nat, k: nat)
    requires from <= k < |es|
    ensures ExecAll(kind, skip, st, es[from..k + 1])
      == ExecNext(kind, skip, ExecAll(kind, skip, st, es[from..k]), es[k])
  {
    hide ExecNext;
    assert es[from..k + 1][..k - from] == es[from..k];
  }

  /** What the file holds from the k-th record on. */
  lemma RestOfFile(block: nat, ms: seq<Message>, k: nat, tail: seq<Byte>)
    requires BlockOk(ms) && k <= |ms| && ReadMessage(tail) == None
    ensures HEADER_SIZE + |Recs(ms[..k])| <= |BlockBytes(ms)|
    ensures k == |ms| ==> ReadMessage((BlockBytes(ms) + tail)[HEADER_SIZE + |Recs(ms[..k])|..]) == None
    ensures k < |ms| ==>
      && ReadMessage((BlockBytes(ms) + tail)[HEADER_SIZE + |Recs(ms[..k])|..]) == Some(Received(ms[k], |Rec(ms[k])|))
      && BlockEntries(block, ms)[k] == Entry(GetMsgId(block, HEADER_SIZE + |Recs(ms[..k])|), ms[k])
      && |Recs(ms[..k + 1])| == |Recs(ms[..k])| + |Rec(ms[k])|
      && HEADER_SIZE + |Recs(ms[..k + 1])| <= |BlockBytes(ms)|
  {
    hide Rec, Recs, EntriesFrom, ReadMessage, Storable, FileHeader;
    if k == |ms| {
      assert ms[..k] == ms;
      BehindHeader(ms, tail, |Recs(ms)|);
      assert Recs(ms)[|Recs(ms)|..] + tail == tail;
    } else {
      EntryAt(GetMsgId(block, HEADER_SIZE), ms, k);
      assert ms[k] in ms;
      ReadRec(ms[k], Recs(ms[k + 1..]) + tail);
      BehindHeader(ms, tail, |Recs(ms[..k])|);
      assert Rec(ms[k]) + Recs(ms[k + 1..]) + tail == Rec(ms[k]) + (Recs(ms[k + 1..]) + tail);
      assert ms[..k + 1] == ms[..k] + [ms[k]];
      RecsAppend(ms[..k], [ms[k]]);
      RecsOne(ms[k]);
    }
  }

  lemma BehindHeader(ms: seq<Message>, tail: seq<Byte>, n: nat)
    requires n <= |Recs(ms)|
    ensures (BlockBytes(ms) + tail)[HEADER_SIZE + n..] == Recs(ms)[n..] + tail && HEADER_SIZE + n <= |BlockBytes(ms)|
  {
    hide Recs, FileHeader;
  }

  lemma BlockIsHeaderAndRecs(ms: seq<Message>)
    ensures BlockBytes(ms) == FileHeader() + Recs(ms)
  {
  }

  // ---------- the index files ----------

  /** The int64 fields of one index record. */
  function Fields(kind: Kind, u: UserID, i: UserIndex): (r: seq<Int64>) {
    match kind
    case Peer => [u.appid, u.uid, ToInt64(i.lastMsgid), ToInt64(i.lastId), ToInt64(i.lastPeerId),
                  ToInt64(i.lastBatchId), ToInt64(i.lastSeqId)]
    case Group => [u.appid, u.uid, ToInt64(i.lastMsgid), ToInt64(i.lastId),
                   ToInt64(i.lastBatchId), ToInt64(i.lastSeqId)]
  }

  /** The size of n index records: 56 bytes each for users, 48 for groups. */
  function Size(kind: Kind, n: nat): (r: nat) { if kind == Peer then 56 * n else 48 * n }

  /** How many whole index records n bytes hold. */
  function Whole(kind: Kind, n: nat): (r: nat) { if kind == Peer then n / 56 else n / 48 }

  /** The bytes of an index file that lists the queues in the given order. */
  function IndexBytes(kind: Kind, index: Index, order: seq<UserID>): (r: seq<Byte>)
    ensures |r| == Size(kind, |order|)
  {
    if order == [] then [] else
    var n := |order| - 1;
    IndexBytes(kind, index, order[..n]) + Put64s(Fields(kind, order[n], Get(index, order[n])))
  }

  /** What one index record of a file says. */
  function ReadFields(kind: Kind, s: seq<Byte>): (r: (UserID, UserIndex)) {
    match kind
    case Peer => (UserID(Slot(s, 0), Slot(s, 1)), UserIndex(Slot(s, 2), Slot(s, 3), Slot(s, 4), Slot(s, 5), Slot(s, 6)))
    case Group => (UserID(Slot(s, 0), Slot(s, 1)), UserIndex(Slot(s, 2), Slot(s, 3), 0, Slot(s, 4), Slot(s, 5)))
  }

  /** An index whose numbers an index file can hold. */
  predicate Saveable(kind: Kind, index: Index) {
    forall u :: u in index ==> FitsInt64(index[u]) && (kind == Group ==> index[u].lastPeerId == 0)
  }

  /** The queues of an index, each once. */
  ghost predicate Lists(order: seq<UserID>, index: Index) {
    && (forall u :: u in order <==> u in index)
    && (forall i, j :: 0 <= i < j < |order| ==> order[i] != order[j])
  }

  lemma FieldsReadBack(kind: Kind, u: UserID, i: UserIndex, rest: seq<Byte>)
    requires FitsInt64(i) && (kind == Group ==> i.lastPeerId == 0)
    ensures ReadFields(kind, Put64s(Fields(kind, u, i)) + rest) == (u, i)
  {
    hide Put64s, Slot;
    SlotsOfPut64s(Fields(kind, u, i), rest);
  }

  lemma {:induction false} IndexRecordAt(kind: Kind, index: Index, order: seq<UserID>, k: nat)
    requires k < |order| && Saveable(kind, index) && forall u :: u in order ==> u in index
    ensures ReadFields(kind, IndexBytes(kind, index, order)[Size(kind, k)..]) == (order[k], index[order[k]])
  {
    hide Put64s, ReadFields, Fields, FitsInt64;
    var n, at := |order| - 1, Size(kind, k);
    assert order[k] in order;
    var front, last := IndexBytes(kind, index, order[..n]), Put64s(Fields(kind, order[n], Get(index, order[n])));
    var bytes := IndexBytes(kind, index, order);
    if k < n {
      IndexRecordAt(kind, index, order[..n], k);
      assert bytes[at..] == front[at..] + last;
      ReadFieldsPrefix(kind, front[at..], last);
    } else {
      assert bytes[at..] == last + [];
      FieldsReadBack(kind, order[n], index[order[n]], []);
    }
  }

  /** An index file byte by byte: 56 bytes for a user, 48 for a group, eight for each number. */
  lemma IndexFileBytes(kind: Kind, index: Index, order: seq<UserID>, k: nat)
    requires k < |order| && Saveable(kind, index) && forall u :: u in order ==> u in index
    ensures var f, u := IndexBytes(kind, index, order), order[k]; var i := index[u];
      && u in index && FitsInt64(i)
      && if kind == Peer then
           && |f| == 56 * |order|
           && Begins(f[56 * k..], [u.appid, u.uid, i.lastMsgid, i.lastId, i.lastPeerId, i.lastBatchId, i.lastSeqId])
         else
           && |f| == 48 * |order|
           && Begins(f[48 * k..], [u.appid, u.uid, i.lastMsgid, i.lastId, i.lastBatchId, i.lastSeqId])
  {
    hide Slot, IndexBytes;
    assert order[k] in order;
    IndexRecordAt(kind, index, order, k);
  }

  lemma ReadFieldsPrefix(kind: Kind, a: seq<Byte>, b: seq<Byte>)
    requires |a| >= Size(kind, 1)
    ensures ReadFields(kind, a + b) == ReadFields(kind, a)
  {
    forall i: nat | 8 * i + 8 <= Size(kind, 1) ensures Slot(a + b, i) == Slot(a, i) {
      assert (a + b)[8 * i..8 * i + 8] == a[8 * i..8 * i + 8];
    }
  }

  /** `savePeerIndex` and `saveGroupIndex`: the whole index, in map order, a thousand records at a time. */
  method SaveIndex(kind: Kind, index: Index) returns (file: seq<Byte>, ghost order: seq<UserID>)
    ensures Lists(order, index) && file == IndexBytes(kind, index, order)
    ensures |file| == Size(kind, |index|)
  {
    hide Put64s, Fields;
    var todo := index.Keys;
    var buffer: seq<Byte> := [];
    var count := 0;
    file, order := [], [];
    while todo != {}
      invariant todo <= index.Keys && (forall u :: u in order <==> u in index.Keys - todo)
      invariant forall i, j :: 0 <= i < j < |order| ==> order[i] != order[j]
      invariant file + buffer == IndexBytes(kind, index, order) && |order| + |todo| == |index|
      decreases |todo|
    {
      var u :| u in todo;
      assert u !in order;
      todo := todo - {u};
      assert (order + [u])[..|order|] == order;
      order := order + [u];
      var fields := Put64s(Fields(kind, u, index[u]));
      assert file + (buffer + fields) == file + buffer + fields;
      buffer := buffer + fields;
      count := count + 1;
      if count % 1000 == 0 {
        assert file + buffer + [] == file + buffer;
        file := file + buffer;
        buffer := [];
      }
    }
    file := file + buffer;
  }

  /** The last ids of the listed queues. */
  function MaxLastId(lastId: int, index: Index, order: seq<UserID>): (r: int) {
    if order == [] then lastId else
    var n := |order| - 1;
    Max(MaxLastId(lastId, index, order[..n]), Get(index, order[n]).lastId)
  }

  /** The index as far as the first queues of the order. */
  function Restored(index: Index, order: seq<UserID>): (r: Index) { map u | u in order :: Get(index, u) }

  /** One chunk of `readPeerIndex` or `readGroupIndex`: every record is entered as `setPeerIndex` does, which
      also raises the last id. */
  method ReadChunk(kind: Kind, st: Recovered, data: seq<Byte>, count: nat, lastId: int,
                   ghost index: Index, ghost order: seq<UserID>, ghost k: nat) returns (r: Recovered)
    requires Lists(order, index) && Saveable(kind, index) && k + count <= |order|
    requires Size(kind, k) + Size(kind, count) <= |IndexBytes(kind, index, order)|
    requires data == IndexBytes(kind, index, order)[Size(kind, k)..Size(kind, k) + Size(kind, count)]
    requires st == Recovered(Restored(index, order[..k]), MaxLastId(lastId, index, order[..k]))
    ensures r == Recovered(Restored(index, order[..k + count]), MaxLastId(lastId, index, order[..k + count]))
  {
    hide ReadFields, Fields, InRange, IndexBytes, Restored, MaxLastId;
    r := st;
    var i: nat := 0;
    while i < count
      invariant i <= count
      invariant r == Recovered(Restored(index, order[..k + i]), MaxLastId(lastId, index, order[..k + i]))
    {
      RecordInChunk(kind, index, order, k, count, i);
      RestoredStep(lastId, index, order, k + i);
      var entry := ReadFields(kind, data[Size(kind, i)..]);
      r := Recovered(r.index[entry.0 := entry.1], Max(r.lastId, entry.1.lastId));
      i := i + 1;
    }
  }

  /** `readPeerIndex` and `readGroupIndex`: a thousand records at a time. */
  method ReadIndex(kind: Kind, lastId: int, file: seq<Byte>, ghost index: Index, ghost order: seq<UserID>)
    returns (r: Recovered)
    requires Lists(order, index) && Saveable(kind, index) && file == IndexBytes(kind, index, order)
    ensures r == Recovered(index, MaxLastId(lastId, index, order))
  {
    hide Saveable, IndexBytes, Restored, MaxLastId, Lists, Whole;
    r := Recovered(map[], lastId);
    RestoredNothing(lastId, index, order);
    var pos := 0;
    ghost var k: nat := 0;
    while pos < |file|
      invariant k <= |order| && pos == Size(kind, k)
      invariant r == Recovered(Restored(index, order[..k]), MaxLastId(lastId, index, order[..k]))
      decreases |file| - pos
    {
      var n := if |file| - pos < Size(kind, 1000) then |file| - pos else Size(kind, 1000);
      var count := Whole(kind, n);
      WholeRecords(kind, |order|, k, n);
      r := ReadChunk(kind, r, file[pos..pos + Size(kind, count)], count, lastId, index, order, k);
      pos := pos + n;
      k := k + count;
    }
    RestoredAll(index, order);
  }

  lemma WholeRecords(kind: Kind, total: nat, k: nat, n: nat)
    requires k <= total && Size(kind, k) < Size(kind, total)
    requires var left := Size(kind, total) - Size(kind, k);
      n == left < Size(kind, 1000) || n == Size(kind, 1000) <= left
    ensures n == Size(kind, Whole(kind, n)) > 0 && Size(kind, k) + n == Size(kind, k + Whole(kind, n))
    ensures k + Whole(kind, n) <= total
  {
  }

  lemma RestoredNothing(lastId: int, index: Index, order: seq<UserID>)
    ensures Restored(index, order[..0]) == map[] && MaxLastId(lastId, index, order[..0]) == lastId
  {
  }

  lemma RestoredAll(index: Index, order: seq<UserID>)
    requires Lists(order, index)
    ensures Restored(index, order[..|order|]) == index && order[..|order|] == order
  {
  }

  lemma RestoredStep(lastId: int, index: Index, order: seq<UserID>, k: nat)
    requires k < |order| && order[k] in index
    ensures Restored(index, order[..k + 1]) == Restored(index, order[..k])[order[k] := index[order[k]]]
    ensures MaxLastId(lastId, index, order[..k + 1])
      == Max(MaxLastId(lastId, index, order[..k]), index[order[k]].lastId)
  {
    assert order[..k + 1] == order[..k] + [order[k]];
    assert order[..k + 1][..k] == order[..k];
  }

  lemma RecordInChunk(kind: Kind, index: Index, order: seq<UserID>, k: nat, count: nat, i: nat)
    requires Saveable(kind, index) && (forall u :: u in order ==> u in index)
    requires i < count && k + count <= |order|
    ensures var file := IndexBytes(kind, index, order);
      && Size(kind, k) + Size(kind, count) <= |file|
      && order[k + i] in index
      && ReadFields(kind, file[Size(kind, k)..Size(kind, k) + Size(kind, count)][Size(kind, i)..])
         == (order[k + i], index[order[k + i]])
  {
    hide ReadFields, IndexBytes, InRange;
    var file := IndexBytes(kind, index, order);
    IndexRecordAt(kind, index, order, k + i);
    var end := Size(kind, k) + Size(kind, count);
    var a := file[Size(kind, k)..end][Size(kind, i)..];
    assert file[Size(kind, k + i)..] == a + file[end..];
    ReadFieldsPrefix(kind, a, file[end..]);
    assert order[k + i] in order;
  }

  // ---------- the last id a checkpoint carries ----------

  /** `last` bounds the last ids of an index, and some queue reaches it unless it is 0. */
  ghost predicate Reaches(index: Index, last: int) {
    && (forall u :: u in index ==> index[u].lastId <= last)
    && (last > 0 ==> exists u :: u in index && index[u].lastId == last)
  }

  lemma {:induction false} ReplayLastIds(kind: Kind, log: seq<Entry>)
    requires Increasing(log)
    ensures Reaches(Replay(kind, map[], log), LastIdOf(kind, log))
  {
    hide Rec, Increasing, Reaches, Exec;
    if log == [] {
      NoLastIds();
    } else {
      var n := |log| - 1;
      IncreasingInit(log);
      ReplayLastIds(kind, log[..n]);
      LastIdBelow(kind, log[..n]);
      ExecReaches(kind, Replay(kind, map[], log[..n]), LastIdOf(kind, log[..n]), log[n]);
    }
  }

  lemma NoLastIds() ensures Reaches(map[], 0) {}

  lemma ExecReaches(kind: Kind, index: Index, last: int, e: Entry)
    requires Reaches(index, last) && last < e.id
    ensures Reaches(Exec(kind, index, e), if IsRecord(kind, e.msg) then e.id else last)
  {
    if IsRecord(kind, e.msg) {
      var next, owner := Exec(kind, index, e), Owner(kind, e.msg);
      assert owner in next && next[owner].lastId == e.id;
      forall u | u in next ensures next[u].lastId <= e.id {
        if u != owner { assert u in index; }
      }
    }
  }

  lemma {:induction false} MaxLastIdBounds(lastId: int, index: Index, order: seq<UserID>, bound: int)
    requires (forall u :: u in order ==> u in index && index[u].lastId <= bound) && lastId <= bound
    ensures MaxLastId(lastId, index, order) <= bound
    ensures lastId <= MaxLastId(lastId, index, order)
    ensures forall u :: u in order ==> index[u].lastId <= MaxLastId(lastId, index, order)
  {
    if order != [] {
      assert order[|order| - 1] in order;
      MaxLastIdBounds(lastId, index, order[..|order| - 1], bound);
    }
  }

  lemma CheckpointLastId(kind: Kind, lastId: int, log: seq<Entry>, order: seq<UserID>)
    requires Increasing(log) && 0 <= lastId && Lists(order, Replay(kind, map[], log))
    ensures MaxLastId(lastId, Replay(kind, map[], log), order) == Max(lastId, LastIdOf(kind, log))
  {
    hide Rec, Increasing;
    var index, last := Replay(kind, map[], log), LastIdOf(kind, log);
    ReplayLastIds(kind, log);
    LastIdBelow(kind, log);
    assert Reaches(index, last);
    MaxLastIdBounds(lastId, index, order, Max(lastId, last));
  }

  lemma {:induction false} GroupHasNoPeers(log: seq<Entry>, u: UserID)
    ensures LastPeer(Queue(Group, log, u)) == 0
  {
    hide IsRecord, Owner;
    if log != [] {
      GroupHasNoPeers(log[..|log| - 1], u);
      var front, q := Queue(Group, log[..|log| - 1], u), Queue(Group, log, u);
      if q != front { assert q[..|q| - 1] == front; }
    }
  }

  /** Any replayed index can be saved, however the records are linked. */
  lemma IndexSaveable(kind: Kind, log: seq<Entry>)
    requires Increasing(log) && forall e :: e in log ==> e.id < MAX_ID
    ensures Saveable(kind, Replay(kind, map[], log))
  {
    hide Rec, Increasing, Replay, Queue, FitsInt64;
    var index := Replay(kind, map[], log);
    forall u | u in index ensures FitsInt64(index[u]) && (kind == Group ==> index[u].lastPeerId == 0) {
      ReplayQueue(kind, map[], log, u);
      IndexFits(kind, log, u);
      IndexClosed(Queue(kind, log, u));
      if kind == Group { GroupHasNoPeers(log, u); }
    }
  }

  // ---------- what every index of the store has in common ----------

  /** The id of a record of this kind in the log. */
  ghost predicate IsRecordId(kind: Kind, log: seq<Entry>, id: int) {
    exists i :: 0 <= i < |log| && log[i].id == id && IsRecord(kind, log[i].msg)
  }

  /** An index whose last ids are those of records of its kind, whatever the rest of its numbers. */
  ghost predicate SaneIndex(kind: Kind, index: Index, log: seq<Entry>) {
    forall u :: u in index ==>
      IsRecordId(kind, log, index[u].lastId) && (kind == Group ==> index[u].lastPeerId == 0)
  }

  /** What is read back of an index that was written to a file: its numbers as int64. */
  function Narrowed(kind: Kind, index: Index): (r: Index) { map u | u in index :: Narrow(kind, index[u]) }

  function Narrow(kind: Kind, i: UserIndex): (r: UserIndex) {
    UserIndex(ToInt64(i.lastMsgid), ToInt64(i.lastId), if kind == Peer then ToInt64(i.lastPeerId) else 0,
              ToInt64(i.lastBatchId), ToInt64(i.lastSeqId))
  }

  lemma NarrowOne(kind: Kind, u: UserID, i: UserIndex)
    ensures Fields(kind, u, i) == Fields(kind, u, Narrow(kind, i)) && FitsInt64(Narrow(kind, i))
    ensures FitsInt64(i) && (kind == Group ==> i.lastPeerId == 0) ==> Narrow(kind, i) == i
  {
  }

  /** The ids of records fit int64. */
  lemma RecordIdFits(kind: Kind, log: seq<Entry>, i: UserIndex)
    requires IsRecordId(kind, log, i.lastId) && Increasing(log) && forall e :: e in log ==> e.id < MAX_ID
    ensures Narrow(kind, i).lastId == i.lastId > 0
  {
    hide Rec, IsRecord;
    var k :| 0 <= k < |log| && log[k].id == i.lastId && IsRecord(kind, log[k].msg);
    assert log[k] in log && HEADER_SIZE <= log[k].id;
  }

  lemma SaneGrows(kind: Kind, index: Index, log: seq<Entry>, longer: seq<Entry>)
    requires SaneIndex(kind, index, log) && log <= longer
    ensures SaneIndex(kind, index, longer)
  {
    forall u | u in index ensures IsRecordId(kind, longer, index[u].lastId) {
      var i :| 0 <= i < |log| && log[i].id == index[u].lastId && IsRecord(kind, log[i].msg);
      assert longer[i] == log[i];
    }
  }

  lemma SaneExec(kind: Kind, index: Index, log: seq<Entry>, e: Entry)
    requires SaneIndex(kind, index, log) && e in log
    ensures SaneIndex(kind, Exec(kind, index, e), log)
  {
    hide IsRecord, Owner;
    var i :| 0 <= i < |log| && log[i] == e;
    assert IsRecord(kind, e.msg) ==> IsRecordId(kind, log, e.id);
  }

  lemma {:induction false} SaneReplay(kind: Kind, index: Index, log: seq<Entry>, es: seq<Entry>)
    requires SaneIndex(kind, index, log) && forall e :: e in es ==> e in log
    ensures SaneIndex(kind, Replay(kind, index, es), log)
  {
    hide SaneIndex, Exec;
    if es != [] {
      var n := |es| - 1;
      SaneReplay(kind, index, log, es[..n]);
      assert es[n] in es;
      SaneExec(kind, Replay(kind, index, es[..n]), log, es[n]);
    }
  }

  /** Replayed indexes are among them. */
  lemma ReplayIsSane(kind: Kind, log: seq<Entry>)
    ensures SaneIndex(kind, Replay(kind, map[], log), log)
  {
    SaneReplay(kind, map[], log, log);
  }

  /** The last id such an index hands on is 0 or that of a record. */
  lemma {:induction false} SaneLastId(kind: Kind, index: Index, order: seq<UserID>, log: seq<Entry>)
    requires SaneIndex(kind, index, log) && (forall u :: u in order ==> u in index) && Increasing(log)
    ensures var id := MaxLastId(0, index, order); id == 0 || IsRecordId(kind, log, id)
  {
    hide Rec, IsRecordId;
    if order != [] {
      var n := |order| - 1;
      assert order[n] in order;
      SaneLastId(kind, index, order[..n], log);
    }
  }

  lemma {:induction false} MaxLastIdFrom(lastId: int, index: Index, order: seq<UserID>)
    requires 0 <= lastId
    ensures MaxLastId(lastId, index, order) == Max(lastId, MaxLastId(0, index, order))
    ensures 0 <= MaxLastId(0, index, order)
  {
    if order != [] { MaxLastIdFrom(lastId, index, order[..|order| - 1]); }
  }

  /** Writing an index or its narrowed form is the same. */
  lemma {:induction false} NarrowedBytes(kind: Kind, index: Index, order: seq<UserID>, log: seq<Entry>)
    requires SaneIndex(kind, index, log) && (forall u :: u in order ==> u in index)
    requires Increasing(log) && forall e :: e in log ==> e.id < MAX_ID
    ensures IndexBytes(kind, index, order) == IndexBytes(kind, Narrowed(kind, index), order)
    ensures MaxLastId(0, index, order) == MaxLastId(0, Narrowed(kind, index), order)
  {
    hide Put64s, Rec, Fields, Narrow, IsRecordId, Increasing;
    if order != [] {
      var n := |order| - 1;
      var u := order[n];
      assert u in order;
      NarrowedBytes(kind, index, order[..n], log);
      NarrowOne(kind, u, index[u]);
      RecordIdFits(kind, log, index[u]);
    }
  }

  lemma NarrowedSane(kind: Kind, index: Index, log: seq<Entry>)
    requires SaneIndex(kind, index, log) && Increasing(log) && forall e :: e in log ==> e.id < MAX_ID
    ensures SaneIndex(kind, Narrowed(kind, index), log) && Saveable(kind, Narrowed(kind, index))
    ensures Saveable(kind, index) ==> Narrowed(kind, index) == index
  {
    hide Rec, IsRecordId, FitsInt64, Increasing;
    forall u | u in index
      ensures Narrowed(kind, index)[u].lastId == index[u].lastId && FitsInt64(Narrowed(kind, index)[u])
      ensures FitsInt64(index[u]) ==> Narrowed(kind, index)[u] == index[u]
    {
      NarrowOne(kind, u, index[u]);
      RecordIdFits(kind, log, index[u]);
    }
  }

  // ---------- the rebuild loops over all block files ----------

  /** Where the rebuild starts reading: a record of a block, or the header of block 0. `at` is the place in the log. */
  ghost predicate StartsAt(blocks: seq<seq<Message>>, first: nat, offset: nat, at: nat) {
    && first < |blocks|
    && ((first == 0 && offset == 0 && at == |blocks[0]|)
        || exists k :: 0 <= k <= |blocks[first]| && offset == HEADER_SIZE + |Recs(blocks[first][..k])|
             && at == |LogOf(blocks[..first])| + k)
  }

  /** The outer loop of the create and repair functions. */
  method ExecBlocks(kind: Kind, skip: bool, st: Recovered, files: seq<seq<Byte>>, first: nat, offset: nat,
                    ghost blocks: seq<seq<Message>>, ghost at: nat) returns (r: Recovered)
    requires BlocksOk(blocks) && Renders(files, blocks) && StartsAt(blocks, first, offset, at)
    ensures at <= |LogOf(blocks)|
    ensures r == ExecAll(kind, skip, st, LogOf(blocks)[at..])
  {
    hide Rec, Recs, EntriesFrom, BlockBytes, BlockOk, LogOf, ExecAll, ExecNext, ReadMessage;
    ghost var log := LogOf(blocks);
    ghost var k := StartIndex(blocks, first, offset, at);
    ReadNothing();
    assert files[first] == BlockBytes(blocks[first]) + [];
    r := ExecFile(kind, skip, st, files[first], first, offset, blocks[first], k, []);
    FirstStretch(blocks, first, at, k);
    var i := first + 1;
    while i < |files|
      invariant first < i <= |files|
      invariant at <= |LogOf(blocks[..i])| <= |log| && r == ExecAll(kind, skip, st, log[at..|LogOf(blocks[..i])|])
    {
      LogPrefix(blocks, i);
      LogPrefix(blocks, i + 1);
      assert BlockOk(blocks[i]) && files[i] == BlockBytes(blocks[i]) + [];
      ghost var es, end := BlockEntries(i, blocks[i]), |LogOf(blocks[..i])|;
      NoRecs(blocks[i]);
      r := ExecFile(kind, skip, r, files[i], i, HEADER_SIZE, blocks[i], 0, []);
      assert es[0..] == es;
      assert log[at..|LogOf(blocks[..i + 1])|] == log[at..end] + es;
      ExecAllConcat(kind, skip, st, log[at..end], es);
      i := i + 1;
    }
    assert blocks[..i] == blocks && log[at..|log|] == log[at..];
  }

  lemma NoRecs(ms: seq<Message>) ensures |Recs(ms[..0])| == 0 {}

  lemma StartIndex(blocks: seq<seq<Message>>, first: nat, offset: nat, at: nat) returns (k: nat)
    requires BlocksOk(blocks) && StartsAt(blocks, first, offset, at)
    ensures k <= |blocks[first]| && at == |LogOf(blocks[..first])| + k && BlockOk(blocks[first])
    ensures offset == HEADER_SIZE + |Recs(blocks[first][..k])| || (offset == 0 && k == |blocks[first]|)
  {
    hide Recs, BlockOk;
    if first == 0 && offset == 0 && at == |blocks[0]| {
      k := |blocks[0]|;
      assert LogOf(blocks[..0]) == [];
    } else {
      k :| 0 <= k <= |blocks[first]| && offset == HEADER_SIZE + |Recs(blocks[first][..k])|
             && at == |LogOf(blocks[..first])| + k;
    }
  }

  /** The part of the first block that is read is a stretch of the log. */
  lemma FirstStretch(blocks: seq<seq<Message>>, first: nat, at: nat, k: nat)
    requires first < |blocks| && k <= |blocks[first]| && at == |LogOf(blocks[..first])| + k
    ensures var end := |LogOf(blocks[..first + 1])|;
      at <= end <= |LogOf(blocks)| && LogOf(blocks)[at..end] == BlockEntries(first, blocks[first])[k..]
  {
    hide EntriesFrom, LogOf;
    LogPrefix(blocks, first);
    LogPrefix(blocks, first + 1);
    var log, end := LogOf(blocks), |LogOf(blocks[..first + 1])|;
    assert log[..end] == LogOf(blocks[..first]) + BlockEntries(first, blocks[first]);
    assert log[at..end] == log[..end][at..];
  }

  /** The position of an id in the log; the length of the log for an id it does not have. */
  function PlaceOf(log: seq<Entry>, id: int): (i: nat)
    ensures i <= |log| && (i < |log| ==> log[i].id == id)
  {
    Search(seq(|log|, i requires 0 <= i < |log| => log[i].id), id)
  }

  /** Where repair starts for a last id: at that record; past block 0 when the id is 0. */
  function RepairPlace(blocks: seq<seq<Message>>, lastId: int): (r: nat)
    requires |blocks| > 0
  {
    if lastId == 0 then |blocks[0]| else PlaceOf(LogOf(blocks), lastId)
  }

  lemma RepairStarts(blocks: seq<seq<Message>>, lastId: int)
    requires BlocksOk(blocks) && (lastId == 0 || PlaceOf(LogOf(blocks), lastId) < |LogOf(blocks)|)
    ensures 0 <= lastId && RepairPlace(blocks, lastId) <= |LogOf(blocks)|
    ensures StartsAt(blocks, GetBlockNO(lastId), GetBlockOffset(lastId), RepairPlace(blocks, lastId))
  {
    hide Rec, Recs, EntriesFrom, LogOf, BlockOk, Storable;
    if lastId == 0 {
      FirstStretch(blocks, 0, |LogOf(blocks[..0])| + |blocks[0]|, |blocks[0]|);
      assert LogOf(blocks[..0]) == [] by { EmptyLog(blocks); }
    } else {
      var i := PlaceOf(LogOf(blocks), lastId);
      var b, k := Locate(blocks, i);
      EntryInBlock(blocks, b, k);
      EntryAt(GetMsgId(b, HEADER_SIZE), blocks[b], k);
      SplitMsgId(b, HEADER_SIZE + |Recs(blocks[b][..k])|);
    }
  }

  lemma EmptyLog(blocks: seq<seq<Message>>) ensures LogOf(blocks[..0]) == [] {}

  lemma PlaceOfEntry(log: seq<Entry>, i: nat)
    requires i < |log| && forall j :: 0 <= j < i ==> log[j].id != log[i].id
    ensures PlaceOf(log, log[i].id) == i
  {
    SearchFirst(seq(|log|, j requires 0 <= j < |log| => log[j].id), i);
  }

  /** What peer repair reads past its start: everything after the record at the last id. */
  lemma RepairSkips(kind: Kind, blocks: seq<seq<Message>>, st: Recovered)
    requires BlocksOk(blocks) && (st.lastId == 0 || PlaceOf(LogOf(blocks), st.lastId) < |LogOf(blocks)|)
    ensures var log, after := LogOf(blocks), PeerResume(blocks, st.lastId);
      && 0 <= st.lastId && RepairPlace(blocks, st.lastId) <= |log| && after <= |log|
      && ExecAll(kind, true, st, log[RepairPlace(blocks, st.lastId)..])
         == Recovered(Replay(kind, st.index, log[after..]), Max(st.lastId, LastIdOf(kind, log[after..])))
  {
    hide Rec, LogOf, BlockOk, ExecAll, Replay, LastIdOf, PlaceOf, Increasing;
    var log, i := LogOf(blocks), RepairPlace(blocks, st.lastId);
    RepairStarts(blocks, st.lastId);
    LogIncreasing(blocks);
    if st.lastId == 0 {
      SuffixIncreasing(log, i);
      ExecAllReplay(kind, true, st, log[i..]);
    } else {
      SkipFirst(kind, st, log, i);
    }
  }

  lemma SkipFirst(kind: Kind, st: Recovered, log: seq<Entry>, i: nat)
    requires Increasing(log) && i < |log| && log[i].id == st.lastId
    ensures ExecAll(kind, true, st, log[i..])
      == Recovered(Replay(kind, st.index, log[i + 1..]), Max(st.lastId, LastIdOf(kind, log[i + 1..])))
  {
    hide Rec, ExecAll, Replay, LastIdOf, Exec, IsRecord;
    assert HEADER_SIZE <= log[i].id;
    SuffixIncreasing(log, i + 1);
    assert log[i..] == [log[i]] + log[i + 1..];
    ExecAllConcat(kind, true, st, [log[i]], log[i + 1..]);
    ExecAllOne(kind, true, st, log[i]);
    ExecAllReplay(kind, true, st, log[i + 1..]);
  }

  lemma SuffixIncreasing(log: seq<Entry>, i: nat)
    requires Increasing(log) && i <= |log|
    ensures Increasing(log[i..])
    ensures i > 0 ==> forall e :: e in log[i..] ==> e.id > log[i - 1].id
    ensures forall e :: e in log[i..] ==> e.id > 0
  {
    hide Rec;
    var rest := log[i..];
    forall j, k | 0 <= j < k < |rest| ensures rest[j].id + |Rec(rest[j].msg)| <= rest[k].id {
      assert log[i + j].id + |Rec(log[i + j].msg)| <= log[i + k].id;
    }
    forall j | 0 <= j < |rest| ensures rest[j].id >= HEADER_SIZE && (i > 0 ==> rest[j].id > log[i - 1].id) {
      assert HEADER_SIZE <= log[i + j].id;
      if i > 0 { assert log[i - 1].id + |Rec(log[i - 1].msg)| <= log[i + j].id; }
    }
  }

  /** The first entry peer repair executes. */
  function PeerResume(blocks: seq<seq<Message>>, lastId: int): (r: nat)
    requires |blocks| > 0
  {
    if lastId == 0 then |blocks[0]| else PlaceOf(LogOf(blocks), lastId) + 1
  }

  /** The create functions: the loops from block 0 on. */
  method RebuildAll(kind: Kind, st: Recovered, files: seq<seq<Byte>>, ghost blocks: seq<seq<Message>>)
    returns (r: Recovered)
    requires BlocksOk(blocks) && Renders(files, blocks) && 0 <= st.lastId
    ensures r == Recovered(Replay(kind, st.index, LogOf(blocks)), Max(st.lastId, LastIdOf(kind, LogOf(blocks))))
  {
    hide LogOf, Replay, BlocksOk, Renders, ExecAll;
    WholeLog(blocks);
    LogIncreasing(blocks);
    r := ExecBlocks(kind, false, st, files, 0, HEADER_SIZE, blocks, 0);
    assert LogOf(blocks)[0..] == LogOf(blocks);
    ExecAllReplay(kind, false, st, LogOf(blocks));
  }

  lemma WholeLog(blocks: seq<seq<Message>>)
    requires BlocksOk(blocks)
    ensures StartsAt(blocks, 0, HEADER_SIZE, 0)
  {
    hide BlockOk;
    NoRecs(blocks[0]);
    EmptyLog(blocks);
  }

  lemma {:induction false} LastIdPlace(kind: Kind, log: seq<Entry>, n: nat)
    requires n <= |log| && Increasing(log)
    ensures var id := LastIdOf(kind, log[..n]); 0 <= id && (id == 0 || PlaceOf(log, id) < n)
    decreases n
  {
    hide Rec, IsRecord, Increasing, PlaceOf;
    if n > 0 {
      LastIdPlace(kind, log, n - 1);
      var prefix := log[..n];
      assert prefix[..n - 1] == log[..n - 1] && prefix[n - 1] == log[n - 1];
      PlaceInLog(log, n - 1);
    }
  }

  lemma {:induction false} LastIdCovers(kind: Kind, log: seq<Entry>, i: nat)
    requires i < |log| && Increasing(log) && IsRecord(kind, log[i].msg)
    ensures log[i].id <= LastIdOf(kind, log)
    decreases |log|
  {
    hide Rec, IsRecord, Increasing;
    var n := |log| - 1;
    IncreasingInit(log);
    if i < n {
      LastIdCovers(kind, log[..n], i);
      LastIdBelow(kind, log[..n]);
    }
  }

  lemma PlaceInLog(log: seq<Entry>, i: nat)
    requires Increasing(log) && i < |log|
    ensures PlaceOf(log, log[i].id) == i && log[i].id > 0
  {
    hide Rec;
    assert HEADER_SIZE <= log[i].id;
    forall j | 0 <= j < i ensures log[j].id != log[i].id { assert log[j].id + |Rec(log[j].msg)| <= log[i].id; }
    PlaceOfEntry(log, i);
  }

  lemma {:induction false} LastIdConcat(kind: Kind, front: seq<Entry>, back: seq<Entry>)
    requires forall e :: e in back ==> e.id > 0
    ensures LastIdOf(kind, front + back)
      == if LastIdOf(kind, back) > 0 then LastIdOf(kind, back) else LastIdOf(kind, front)
  {
    hide IsRecord;
    if back == [] {
      assert front + back == front;
    } else {
      var n, all := |back| - 1, front + back;
      assert all[..|all| - 1] == front + back[..n] && all[|all| - 1] == back[n];
      assert back[n] in back;
      LastIdConcat(kind, front, back[..n]);
    }
  }

  lemma {:induction false} LastIdNone(kind: Kind, log: seq<Entry>)
    requires NoRecords(kind, log)
    ensures LastIdOf(kind, log) == 0
  {
    if log != [] {
      assert log[|log| - 1] in log;
      LastIdNone(kind, log[..|log| - 1]);
    }
  }

  /** Reading an index file of the store, whether or not its numbers are right. */
  method ReadSaved(kind: Kind, lastId: int, file: seq<Byte>, ghost saved: Index, ghost order: seq<UserID>,
                   ghost log: seq<Entry>) returns (r: Recovered)
    requires 0 <= lastId && Increasing(log) && (forall e :: e in log ==> e.id < MAX_ID)
    requires SaneIndex(kind, saved, log) && Lists(order, saved) && file == IndexBytes(kind, saved, order)
    ensures r == Recovered(Narrowed(kind, saved), Max(lastId, MaxLastId(0, saved, order)))
  {
    hide IndexBytes, Rec, SaneIndex, Saveable, MaxLastId;
    NarrowedBytes(kind, saved, order, log);
    NarrowedSane(kind, saved, log);
    MaxLastIdFrom(lastId, Narrowed(kind, saved), order);
    r := ReadIndex(kind, lastId, file, Narrowed(kind, saved), order);
  }

  // ---------- one queue across a restart ----------

  /** The index has the numbers of this queue right. */
  predicate Counted(kind: Kind, index: Index, log: seq<Entry>, u: UserID) {
    Get(index, u) == IndexOf(Queue(kind, log, u))
  }

  /** Replaying a tail of the log over an index that had a queue right at some time: it has it right again exactly
      when no record of that queue lies between the two places. */
  lemma QueueRecoversIff(kind: Kind, index: Index, log: seq<Entry>, g: nat, at: nat, u: UserID)
    requires g <= |log| && at <= |log| && Counted(kind, index, log[..g], u)
    ensures Counted(kind, Replay(kind, index, log[at..]), log, u)
      <==> Queue(kind, log[Min(g, at)..Max(g, at)], u) == []
  {
    hide Queue, Replay, Advance;
    var lo, between, tail := Min(g, at), log[Min(g, at)..Max(g, at)], log[at..];
    assert log == log[..at] + tail && log[..Max(g, at)] == log[..lo] + between;
    ReplayQueue(kind, index, tail, u);
    if Queue(kind, between, u) == [] {
      ReplayQueue(kind, map[], log[..g], u);
      ReplayConcat(kind, map[], log[..lo], between);
      ReplayQueue(kind, Replay(kind, map[], log[..lo]), between, u);
      NothingToAdvance(Get(Replay(kind, map[], log[..lo]), u));
      ReplayConcat(kind, map[], log[..at], tail);
      ReplayQueue(kind, Replay(kind, map[], log[..at]), tail, u);
      ReplayQueue(kind, map[], log, u);
    } else {
      AdvanceSeq(Get(index, u), Queue(kind, tail, u));
      AdvanceSeq(EMPTY_INDEX, Queue(kind, log[..g], u));
      AdvanceSeq(EMPTY_INDEX, Queue(kind, log, u));
      QueueConcat(kind, log[..at], tail, u);
      QueueConcat(kind, log[..lo], between, u);
    }
  }

  /** One queue is right, whatever the others are like: its records are linked and the index has its numbers. */
  ghost predicate IsRight(kind: Kind, index: Index, log: seq<Entry>, u: UserID) {
    LinkedQueue(kind, log, u) && Counted(kind, index, log, u)
  }

  /** From the last id of the index, the links of a queue lead down a chain of its elements, and to nothing else. After
      a restart that has passed over messages it leaves these out. */
  ghost predicate IsChain(kind: Kind, index: Index, log: seq<Entry>, u: UserID, w: seq<Item>) {
    && Behind(kind, log, u) && ThreadOk(w) && (forall x :: x in w ==> x in Queue(kind, log, u))
    && Get(index, u).lastId == IdBefore(w, |w|)
  }

  /** The chain is the whole queue, even if that is misnumbered. */
  ghost predicate IsKnown(kind: Kind, index: Index, log: seq<Entry>, u: UserID) {
    IsChain(kind, index, log, u, Queue(kind, log, u))
  }

  lemma RightIsKnown(kind: Kind, index: Index, log: seq<Entry>, u: UserID)
    requires Increasing(log)
    ensures IsRight(kind, index, log, u) ==> IsKnown(kind, index, log, u)
  {
    hide Queue, LinkedQueue, Behind, Increasing;
    LinkedOne(kind, log, u);
    if LinkedQueue(kind, log, u) {
      QueueStructure(kind, log, u);
      QueueIsThread(Queue(kind, log, u));
      IndexClosed(Queue(kind, log, u));
    }
  }

  lemma CountedIff(kind: Kind, index: Index, log: seq<Entry>, u: UserID)
    ensures Counted(kind, index, log, u) <==> Get(index, u) == Get(Replay(kind, map[], log), u)
  {
    hide Queue, Replay, Advance;
    ReplayQueue(kind, map[], log, u);
  }

  lemma NothingToAdvance(i: UserIndex) ensures Advance(i, []) == i {}

  /** What an index file keeps of an index: it is as right after reading as it was. */
  lemma NarrowedKeeps(kind: Kind, saved: Index, log: seq<Entry>, u: UserID)
    requires SaneIndex(kind, saved, log) && Increasing(log) && forall e :: e in log ==> e.id < MAX_ID
    ensures Counted(kind, saved, log, u) ==> Counted(kind, Narrowed(kind, saved), log, u)
    ensures LastOk(kind, saved, log, u) ==> LastOk(kind, Narrowed(kind, saved), log, u)
  {
    hide Queue, IndexOf, Rec, Increasing, IsRecordId;
    if u in saved {
      RecordIdFits(kind, log, saved[u]);
      IndexFits(kind, log, u);
      NarrowOne(kind, u, saved[u]);
    }
  }

  /** The index knows the last message of a queue. */
  predicate LastOk(kind: Kind, index: Index, log: seq<Entry>, u: UserID) {
    var q, i := Queue(kind, log, u), Get(index, u);
    i.lastId == IdBefore(q, |q|) && i.lastMsgid == if q == [] then 0 else q[|q| - 1].off.msgid
  }

  lemma {:induction false} QueueConcatLast(kind: Kind, front: seq<Entry>, back: seq<Entry>, u: UserID)
    ensures var q, tail := Queue(kind, front + back, u), Queue(kind, back, u);
      if tail == [] then q == Queue(kind, front, u)
      else q != [] && q[|q| - 1].id == tail[|tail| - 1].id && q[|q| - 1].off == tail[|tail| - 1].off
  {
    hide IsRecord, Owner, InGroup;
    if back == [] {
      assert front + back == front;
    } else {
      var n := |back| - 1;
      var all := front + back;
      assert all[..|all| - 1] == front + back[..n] && all[|all| - 1] == back[n];
      QueueConcatLast(kind, front, back[..n], u);
    }
  }

  lemma AdvanceLast(i: UserIndex, q: seq<Item>)
    ensures var r := Advance(i, q);
      if q == [] then r == i else r.lastId == q[|q| - 1].id && r.lastMsgid == q[|q| - 1].off.msgid
  {
  }

  /** Replaying a tail of the log over an index that knew the last message of a queue at some time: it knows the
      last one again exactly when the tail has one, or none was left out in between. */
  lemma LastAfter(kind: Kind, index: Index, log: seq<Entry>, g: nat, at: nat, u: UserID)
    requires g <= |log| && at <= |log| && Increasing(log) && LastOk(kind, index, log[..g], u)
    ensures LastOk(kind, Replay(kind, index, log[at..]), log, u)
      <==> Queue(kind, log[at..], u) != [] || Queue(kind, log[Min(g, at)..at], u) == []
  {
    hide Queue, Replay, Rec, Increasing;
    var tail := Queue(kind, log[at..], u);
    ReplayQueue(kind, index, log[at..], u);
    AdvanceLast(Get(index, u), tail);
    assert log == log[..at] + log[at..];
    QueueConcatLast(kind, log[..at], log[at..], u);
    if tail == [] {
      if g <= at {
        assert log[..at] == log[..g] + log[g..at];
        QueueConcatLast(kind, log[..g], log[g..at], u);
        PrefixIncreasing(log, at);
        assert log[..at][..g] == log[..g] && log[..at][g..] == log[g..at];
        LaterIds(kind, log[..at], g, u);
      } else {
        assert log[at..at] == [] && log == log[..g] + log[g..] && log[..g] == log[..at] + log[at..g];
        QueueConcat(kind, log[..g], log[g..], u);
        QueueConcat(kind, log[..at], log[at..g], u);
        NoQueue(kind, u);
      }
    }
  }

  /** What can be reached after a restart: the chain of the file, if the tail has nothing of the queue, or the one that
      ends with the tail's last record, as the stopped server had it. */
  lemma ChainAfter(kind: Kind, index: Index, log: seq<Entry>, g: nat, at: nat, u: UserID, w: seq<Item>)
    requires g <= |log| && at <= |log| && Behind(kind, log, u) && ThreadOk(w)
    requires if Queue(kind, log[at..], u) == [] then IsChain(kind, index, log[..g], u, w)
      else w != [] && (forall x :: x in w ==> x in Queue(kind, log, u))
           && w[|w| - 1].id == IdBefore(Queue(kind, log, u), |Queue(kind, log, u)|)
    ensures IsChain(kind, Replay(kind, index, log[at..]), log, u, w)
  {
    hide Queue, Replay, Behind, ThreadOk;
    var tail := Queue(kind, log[at..], u);
    ReplayQueue(kind, index, log[at..], u);
    AdvanceLast(Get(index, u), tail);
    assert log == log[..at] + log[at..];
    QueueConcatLast(kind, log[..at], log[at..], u);
    if tail == [] {
      assert log == log[..g] + log[g..];
      QueueConcat(kind, log[..g], log[g..], u);
      var older, q := Queue(kind, log[..g], u), Queue(kind, log, u);
      forall x | x in w ensures x in q {
        assert x in older && older <= q;
      }
    }
  }

  lemma NoQueue(kind: Kind, u: UserID) ensures Queue(kind, [], u) == [] {}

  /** Later records have other ids. */
  lemma LaterIds(kind: Kind, log: seq<Entry>, g: nat, u: UserID)
    requires Increasing(log) && g <= |log|
    ensures var q, older := Queue(kind, log, u), Queue(kind, log[..g], u);
      Queue(kind, log[g..], u) != [] ==> IdBefore(q, |q|) != IdBefore(older, |older|)
  {
    hide Queue, Rec, IsRecord;
    var q, older, tail := Queue(kind, log, u), Queue(kind, log[..g], u), Queue(kind, log[g..], u);
    assert log == log[..g] + log[g..];
    QueueConcatLast(kind, log[..g], log[g..], u);
    if tail != [] {
      SuffixIncreasing(log, g);
      PrefixIncreasing(log, g);
      QueueIdsAtLeast(kind, log[g..], u);
      assert tail[|tail| - 1] in tail;
      if g == 0 {
        NoQueue(kind, u);
      } else if older != [] {
        QueueIdsBound(kind, log[..g], u);
        assert older[|older| - 1] in older;
        assert log[g - 1].id + |Rec(log[g - 1].msg)| <= log[g].id;
      }
    }
  }

  lemma {:induction false} QueueIdsAtLeast(kind: Kind, log: seq<Entry>, u: UserID)
    requires Increasing(log)
    ensures forall x :: x in Queue(kind, log, u) ==> log != [] && HEADER_SIZE <= log[0].id <= x.id
  {
    hide Rec, IsRecord, Owner, InGroup;
    if log != [] {
      var n := |log| - 1;
      PrefixIncreasing(log, n);
      QueueIdsAtLeast(kind, log[..n], u);
      assert HEADER_SIZE <= log[0].id;
      if n > 0 { assert log[0].id + |Rec(log[0].msg)| <= log[n].id; }
    }
  }

  lemma PrefixIncreasing(log: seq<Entry>, n: nat)
    requires Increasing(log) && n <= |log|
    ensures Increasing(log[..n])
  {
    hide Rec;
  }
}
