/** The append-only block log of ims/storage_file.go: 128 MB block files, each a header followed by
    records framed by a magic number. */
module StorageFiles {
  import opened Bytes
  import opened Protocol
  import opened Codec
  import opened WireFormat

  const HEADER_SIZE := 32
  const MAGIC := 0x494d_494d
  const F_VERSION := 0x1_0000
  const BLOCK_SIZE := 134217728

  /** The number of blocks whose message ids an int64 can hold. */
  const MAX_BLOCKS := 0x10_0000_0000

  /** One stored record with its message id. */
  datatype Entry = Entry(id: int, msg: Message)

  function GetMsgId(block: int, offset: int): (r: int) { block * BLOCK_SIZE + offset }

  /** Go's division truncates toward zero. */
  function GetBlockNO(id: int): (r: int) { if id >= 0 then id / BLOCK_SIZE else -(-id / BLOCK_SIZE) }
  function GetBlockOffset(id: int): (r: int) { if id >= 0 then id % BLOCK_SIZE else -(-id % BLOCK_SIZE) }

  /** Splitting a message id inverts building it from a block and an offset inside the block. */
  lemma SplitMsgId(block: nat, offset: nat)
    ensures GetBlockNO(GetMsgId(block, offset)) == block && GetBlockOffset(GetMsgId(block, offset)) == offset
      <==> offset < BLOCK_SIZE
  {
    if offset < BLOCK_SIZE {
      assert GetMsgId(block, offset) / BLOCK_SIZE == block;
    }
  }

  function Zeros(n: nat): (s: seq<Byte>)
    ensures |s| == n && forall i :: 0 <= i < n ==> s[i] == 0
  {
    seq(n, _ => 0)
  }

  function FileHeader(): (h: seq<Byte>)
    ensures |h| == HEADER_SIZE
  {
    Put32(MAGIC) + Put32(F_VERSION) + Zeros(24)
  }

  /** `WriteMessage` of a storage file. */
  function Rec(m: Message): (r: seq<Byte>)
    ensures |r| == |Frame(m)| + 8 >= 20
  {
    Put32(MAGIC) + Frame(m) + Put32(MAGIC)
  }

  /** `ReadMessage`: the record at the start of `s` and its length. */
  function ReadMessage(s: seq<Byte>): (r: Option<Received>)
    ensures r.Some? ==> 20 <= r.value.size <= |s|
  {
    if |s| < 4 || Get32(s[..4]) != MAGIC then None else
    match Receive(s[4..], MESSAGE_LIMIT, false)
    case None => None
    case Some(got) =>
      var end := 4 + got.size;
      if |s| < end + 4 || Get32(s[end..end + 4]) != MAGIC then None
      else Some(Received(got.msg, end + 4))
  }

  /** `LoadMessage` on the block files as they are on disk. */
  function LoadFrom(files: seq<seq<Byte>>, id: int): (r: Option<Message>)
  {
    var block, offset := GetBlockNO(id), GetBlockOffset(id);
    if block < 0 || block >= |files| || offset < 0 || offset > |files[block]| then None else
    match ReadMessage(files[block][offset..])
    case None => None
    case Some(got) => Some(got.msg)
  }

  /** The messages the store can read again. Legacy queue records are not part of this model. */
  predicate Storable(m: Message) {
    && Fits(m) && |Encode(m.body, m.version)| < MESSAGE_LIMIT
    && m.cmd != MSG_OFFLINE && m.cmd != MSG_OFFLINE_V2 && m.cmd != MSG_GROUP_IM_LIST
  }

  lemma ReadNothing()
    ensures ReadMessage([]) == None
  {
  }

  lemma ReadRec(m: Message, rest: seq<Byte>)
    requires Storable(m)
    ensures ReadMessage(Rec(m) + rest) == Some(Received(m, |Rec(m)|))
  {
    hide Fits, Encode, Frame, Receive, PutUint, GetUint, Put32, Get32;
    var s, f := Rec(m) + rest, Frame(m);
    assert s[..4] == Put32(MAGIC);
    assert s[4..] == f + (Put32(MAGIC) + rest);
    assert s[4 + |f|..8 + |f|] == Put32(MAGIC);
    GetPut32(MAGIC);
    RoundTrip(m, Put32(MAGIC) + rest, MESSAGE_LIMIT);
  }

  /** Exactly the messages that fit and stay below 32768 bytes can be read again. */
  lemma ReadRecIff(m: Message, rest: seq<Byte>)
    requires |Encode(m.body, m.version)| < 0x8000_0000
    ensures ReadMessage(Rec(m) + rest) == Some(Received(m, |Rec(m)|))
      <==> Fits(m) && |Encode(m.body, m.version)| < MESSAGE_LIMIT
  {
    hide Fits, Encode, Frame, Receive, PutUint, GetUint, Put32, Get32;
    var s, f := Rec(m) + rest, Frame(m);
    assert s[..4] == Put32(MAGIC);
    assert s[4..] == f + (Put32(MAGIC) + rest);
    assert s[4 + |f|..8 + |f|] == Put32(MAGIC);
    GetPut32(MAGIC);
    RoundTripIff(m, Put32(MAGIC) + rest, MESSAGE_LIMIT);
  }

  /** A record with a longer body ends what can be read of its block, and its message does not load. */
  lemma LongRecord(m: Message, rest: seq<Byte>)
    requires MESSAGE_LIMIT <= |Encode(m.body, m.version)| < 0x8000_0000
    ensures ReadMessage(Rec(m) + rest) == None
  {
    hide Encode, PutUint, GetUint, Put32, Get32, Decode;
    var s, body := Rec(m) + rest, Encode(m.body, m.version);
    assert s[4..][..12] == Header(|body|, m);
    ReadHeader(m, |body|, s[4..]);
  }

  /** What is saved of a chat message: with a timestamp, which only version 2 encodes. */
  function Stamped(m: Message, timestamp: Int32): (r: Message)
    requires m.body.IM?
  {
    var body := m.body;
    Message(m.cmd, 0, DEFAULT_VERSION, 0, IM(body.sender, body.receiver, timestamp, body.localId, body.content))
  }

  /** From 32744 bytes of content up to 32747, a chat message is accepted in version 0 but cannot be read again from
      the store. */
  lemma StampedTooLong(m: Message, timestamp: Int32, rest: seq<Byte>)
    requires m.body.IM? && m.body.timestamp == 0 && m.version == 0 && |m.body.content| < 0x7000_0000
    requires 0 <= m.flag < 256 && -0x8000_0000 <= m.seqNo < 0x8000_0000 && (m.cmd == MSG_IM || m.cmd == MSG_GROUP_IM)
    ensures var stored, n := Stamped(m, timestamp), |m.body.content|;
      && (Receive(Frame(m) + rest, MESSAGE_LIMIT, false) == Some(Received(m, |Frame(m)|)) <==> n <= 32747)
      && (ReadMessage(Rec(stored) + rest) == Some(Received(stored, |Rec(stored)|)) <==> n <= 32743)
  {
    hide Put64, Put32, Receive, ReadMessage, Frame, Rec;
    var stored := Stamped(m, timestamp);
    IMLength(m.body, 0);
    IMLength(stored.body, 2);
    assert BodyFits(m.body, 0) && BodyFits(stored.body, 2);
    assert LayoutOfBody(m.body) == LayoutOfBody(stored.body) == LayoutOf(m.cmd);
    assert Fits(m) && Fits(stored);
    hide Encode, Fits;
    RoundTripIff(m, rest, MESSAGE_LIMIT);
    ReadRecIff(stored, rest);
  }

  lemma IMLength(body: Body, version: int)
    requires body.IM?
    ensures |Encode(body, version)| == (if version == 0 then 20 else 24) + |body.content|
  {
    hide Put64, Put32;
    assert |Put64s([body.sender, body.receiver])| == 16;
  }

  /** A file header never parses as a record: its version number reads as a body of 65536 bytes. */
  lemma HeaderIsNoRecord(rest: seq<Byte>)
    ensures ReadMessage(FileHeader() + rest) == None
  {
    hide PutUint, GetUint, Put32, Get32, Decode;
    var s := FileHeader() + rest;
    assert s[4..][0..4] == Put32(F_VERSION);
    GetPut32(F_VERSION);
  }

  // ---------- blocks of messages and their bytes ----------

  function Recs(ms: seq<Message>): (r: seq<Byte>) { if ms == [] then [] else Rec(ms[0]) + Recs(ms[1..]) }

  function BlockBytes(ms: seq<Message>): (r: seq<Byte>) { FileHeader() + Recs(ms) }

  /** The entries of a run of records starting at id. */
  function EntriesFrom(id: int, ms: seq<Message>): (es: seq<Entry>)
    ensures |es| == |ms|
    decreases ms
  {
    if ms == [] then [] else [Entry(id, ms[0])] + EntriesFrom(id + |Rec(ms[0])|, ms[1..])
  }

  function BlockEntries(block: int, ms: seq<Message>): (r: seq<Entry>) {
    EntriesFrom(GetMsgId(block, HEADER_SIZE), ms)
  }

  /** All entries of the log in the order they were appended. */
  function LogOf(blocks: seq<seq<Message>>): (r: seq<Entry>) {
    if blocks == [] then []
    else LogOf(blocks[..|blocks| - 1]) + BlockEntries(|blocks| - 1, blocks[|blocks| - 1])
  }

  predicate BlockOk(ms: seq<Message>) {
    (forall m :: m in ms ==> Storable(m)) && |BlockBytes(ms)| <= BLOCK_SIZE
  }

  predicate BlocksOk(blocks: seq<seq<Message>>) {
    && 0 < |blocks| <= MAX_BLOCKS
    && (forall b :: 0 <= b < |blocks| ==> BlockOk(blocks[b]))
    && (forall b :: 0 < b < |blocks| ==> blocks[b] != [])
  }

  lemma {:induction false} RecsAppend(ms: seq<Message>, ns: seq<Message>)
    ensures Recs(ms + ns) == Recs(ms) + Recs(ns)
  {
    hide Rec;
    if ms == [] {
      assert ms + ns == ns;
    } else {
      var all := ms + ns;
      assert all[0] == ms[0] && all[1..] == ms[1..] + ns;
      RecsAppend(ms[1..], ns);
      assert Recs(all) == Rec(ms[0]) + Recs(all[1..]);
    }
  }

  lemma RecsOne(m: Message)
    ensures Recs([m]) == Rec(m)
  {
    hide Rec;
    assert [m][1..] == [];
    assert Recs([m][1..]) == [];
  }

  lemma {:induction false} EntriesAppend(id: int, ms: seq<Message>, ns: seq<Message>)
    ensures EntriesFrom(id, ms + ns) == EntriesFrom(id, ms) + EntriesFrom(id + |Recs(ms)|, ns)
    decreases ms
  {
    hide Rec;
    if ms == [] {
      assert ms + ns == ns;
    } else {
      var all := ms + ns;
      assert all[0] == ms[0] && all[1..] == ms[1..] + ns;
      EntriesAppend(id + |Rec(ms[0])|, ms[1..], ns);
    }
  }

  /** Where the k-th record of a run lies. */
  lemma {:induction false} EntryAt(id: int, ms: seq<Message>, k: nat)
    requires k < |ms|
    ensures |Recs(ms[..k])| + |Rec(ms[k])| <= |Recs(ms)|
    ensures EntriesFrom(id, ms)[k] == Entry(id + |Recs(ms[..k])|, ms[k])
    ensures Recs(ms)[|Recs(ms[..k])|..] == Rec(ms[k]) + Recs(ms[k + 1..])
  {
    hide Rec;
    var front, back := ms[..k], ms[k..];
    assert ms == front + back;
    EntriesAppend(id, front, back);
    RecsAppend(front, back);
    assert Recs(back) == Rec(back[0]) + Recs(back[1..]);
    assert back[0] == ms[k] && back[1..] == ms[k + 1..];
  }

  /** The log lists a block's entries after those of all earlier blocks. */
  lemma {:induction false} Locate(blocks: seq<seq<Message>>, i: nat) returns (b: nat, k: nat)
    requires i < |LogOf(blocks)|
    ensures b < |blocks| && k < |blocks[b]|
    ensures LogOf(blocks)[i] == BlockEntries(b, blocks[b])[k]
    ensures i == |LogOf(blocks[..b])| + k
  {
    hide Rec, EntriesFrom;
    var init := blocks[..|blocks| - 1];
    if i < |LogOf(init)| {
      b, k := Locate(init, i);
      assert blocks[..b] == init[..b];
    } else {
      b, k := |blocks| - 1, i - |LogOf(init)|;
    }
  }

  /** The log of the first blocks is the start of the log. */
  lemma {:induction false} LogPrefix(blocks: seq<seq<Message>>, b: nat)
    requires b <= |blocks|
    ensures LogOf(blocks[..b]) <= LogOf(blocks)
    ensures b < |blocks| ==> LogOf(blocks[..b + 1]) == LogOf(blocks[..b]) + BlockEntries(b, blocks[b])
  {
    hide EntriesFrom;
    if b == |blocks| {
      assert blocks[..b] == blocks;
    } else {
      var init := blocks[..|blocks| - 1];
      LogPrefix(init, b);
      assert init[..b] == blocks[..b] && blocks[..b + 1][..b] == blocks[..b];
    }
  }

  /** The entry after the i-th is the next of its block, or the first of the next block. */
  lemma {:induction false} Successor(blocks: seq<seq<Message>>, i: nat) returns (b: nat, k: nat)
    requires BlocksOk(blocks) && i + 1 < |LogOf(blocks)|
    ensures b < |blocks| && k < |blocks[b]| && LogOf(blocks)[i] == BlockEntries(b, blocks[b])[k]
    ensures k + 1 < |blocks[b]| ==> LogOf(blocks)[i + 1] == BlockEntries(b, blocks[b])[k + 1]
    ensures k + 1 == |blocks[b]| ==> b + 1 < |blocks| && blocks[b + 1] != []
    ensures k + 1 == |blocks[b]| ==> LogOf(blocks)[i + 1] == BlockEntries(b + 1, blocks[b + 1])[0]
  {
    hide Rec, EntriesFrom, BlockOk;
    var n := |blocks| - 1;
    var init := blocks[..n];
    if i >= |LogOf(init)| {
      b, k := n, i - |LogOf(init)|;
    } else {
      assert n > 0;
      if i + 1 < |LogOf(init)| {
        assert forall c :: 0 <= c < |init| ==> init[c] == blocks[c];
        b, k := Successor(init, i);
      } else {
        assert forall c :: 0 <= c < |init| ==> init[c] == blocks[c];
        assert init[n - 1] == blocks[n - 1];
        b := n - 1;
        k := LastOfBlock(init);
      }
    }
  }

  lemma LastOfBlock(blocks: seq<seq<Message>>) returns (k: nat)
    requires BlocksOk(blocks) && LogOf(blocks) != []
    ensures k + 1 == |blocks[|blocks| - 1]|
    ensures LogOf(blocks)[|LogOf(blocks)| - 1] == BlockEntries(|blocks| - 1, blocks[|blocks| - 1])[k]
  {
    hide Rec, EntriesFrom, BlockOk;
    var n := |blocks| - 1;
    if n == 0 { assert LogOf(blocks[..0]) == []; }
    k := |blocks[n]| - 1;
  }

  /** Every entry lies inside one block, past the header, and can be read back. */
  lemma EntryInBlock(blocks: seq<seq<Message>>, b: nat, k: nat)
    requires BlocksOk(blocks) && b < |blocks| && k < |blocks[b]|
    ensures var e := BlockEntries(b, blocks[b])[k];
      && GetBlockNO(e.id) == b && HEADER_SIZE <= GetBlockOffset(e.id)
      && GetBlockOffset(e.id) + |Rec(e.msg)| <= |BlockBytes(blocks[b])| <= BLOCK_SIZE
      && Storable(e.msg)
      && BlockBytes(blocks[b])[GetBlockOffset(e.id)..] == Rec(e.msg) + Recs(blocks[b][k + 1..])
  {
    hide Rec, EntriesFrom, Storable;
    var ms := blocks[b];
    assert BlockOk(blocks[b]) && ms[k] in ms;
    EntryAt(GetMsgId(b, HEADER_SIZE), ms, k);
    SplitMsgId(b, HEADER_SIZE + |Recs(ms[..k])|);
  }

  /** Ids grow past the end of every earlier record; no record crosses a block. */
  predicate Increasing(log: seq<Entry>) {
    && (forall i :: 0 <= i < |log| ==> HEADER_SIZE <= log[i].id)
    && (forall i, j :: 0 <= i < j < |log| ==> log[i].id + |Rec(log[i].msg)| <= log[j].id)
  }

  lemma EntriesIncreasing(id: int, ms: seq<Message>)
    requires HEADER_SIZE <= id
    ensures Increasing(EntriesFrom(id, ms))
  {
    hide Rec, EntriesFrom, Recs;
    var es := EntriesFrom(id, ms);
    forall k | 0 <= k < |es| ensures HEADER_SIZE <= es[k].id {
      EntryAt(id, ms, k);
    }
    forall j, k | 0 <= j < k < |es| ensures es[j].id + |Rec(es[j].msg)| <= es[k].id {
      EntryAt(id, ms, j);
      EntryAt(id, ms, k);
      var front := ms[..k];
      EntryAt(id, front, j);
      assert front[..j] == ms[..j] && front[j] == ms[j];
    }
  }

  lemma BlockEntriesBound(blocks: seq<seq<Message>>, b: nat)
    requires BlocksOk(blocks) && b < |blocks|
    ensures forall e :: e in BlockEntries(b, blocks[b]) ==>
      (b * BLOCK_SIZE + HEADER_SIZE <= e.id && e.id + |Rec(e.msg)| <= (b + 1) * BLOCK_SIZE)
  {
    hide Rec, EntriesFrom, Storable, BlockBytes;
    var es := BlockEntries(b, blocks[b]);
    forall k | 0 <= k < |es| ensures b * BLOCK_SIZE + HEADER_SIZE <= es[k].id
      ensures es[k].id + |Rec(es[k].msg)| <= (b + 1) * BLOCK_SIZE
    {
      EntryInBlock(blocks, b, k);
    }
  }

  lemma {:induction false} LogIncreasing(blocks: seq<seq<Message>>)
    requires blocks == [] || BlocksOk(blocks)
    ensures Increasing(LogOf(blocks))
    ensures forall e :: e in LogOf(blocks) ==> e.id + |Rec(e.msg)| <= |blocks| * BLOCK_SIZE
  {
    hide Rec, EntriesFrom, BlockOk;
    if blocks != [] {
      var n := |blocks| - 1;
      var init, last := blocks[..n], BlockEntries(n, blocks[n]);
      assert init == [] || BlocksOk(init) by {
        assert forall b :: 0 <= b < |init| ==> init[b] == blocks[b];
      }
      LogIncreasing(init);
      BlockEntriesBound(blocks, n);
      EntriesIncreasing(GetMsgId(n, HEADER_SIZE), blocks[n]);
      IncreasingConcat(LogOf(init), last, n * BLOCK_SIZE);
    }
  }

  lemma IncreasingConcat(front: seq<Entry>, back: seq<Entry>, border: int)
    requires Increasing(front) && Increasing(back)
    requires forall e :: e in front ==> e.id + |Rec(e.msg)| <= border
    requires forall e :: e in back ==> border <= e.id
    ensures Increasing(front + back)
  {
    hide Rec;
    var all := front + back;
    forall i, j | 0 <= i < j < |all| ensures all[i].id + |Rec(all[i].msg)| <= all[j].id {
      if i < |front| <= j {
        assert all[i] in front && all[j] in back;
      }
    }
  }

  /** Reading an id of the log gives the message that was saved under it. */
  lemma LoadEntry(files: seq<seq<Byte>>, blocks: seq<seq<Message>>, i: nat)
    requires BlocksOk(blocks) && Renders(files, blocks) && i < |LogOf(blocks)|
    ensures LoadFrom(files, LogOf(blocks)[i].id) == Some(LogOf(blocks)[i].msg)
    ensures Storable(LogOf(blocks)[i].msg)
  {
    hide Rec, EntriesFrom, LogOf, Storable, BlockBytes, ReadMessage;
    var b, k := Locate(blocks, i);
    EntryInBlock(blocks, b, k);
    var e := LogOf(blocks)[i];
    assert files[b] == BlockBytes(blocks[b]);
    ReadRec(e.msg, Recs(blocks[b][k + 1..]));
  }

  /** There is no message 0, and none below it. */
  lemma LoadNothing(files: seq<seq<Byte>>, blocks: seq<seq<Message>>, id: int)
    requires BlocksOk(blocks) && Renders(files, blocks) && id <= 0
    ensures LoadFrom(files, id) == None
  {
    if id == 0 {
      hide ReadMessage, Recs;
      assert files[0] == BlockBytes(blocks[0]);
      assert files[0][0..] == FileHeader() + Recs(blocks[0]);
      HeaderIsNoRecord(Recs(blocks[0]));
    }
  }

  /** The block files hold exactly the given messages. */
  ghost predicate Renders(files: seq<seq<Byte>>, blocks: seq<seq<Message>>) {
    |files| == |blocks| && forall b :: 0 <= b < |files| ==> files[b] == BlockBytes(blocks[b])
  }

  /** What `saveMessage` does to the blocks. */
  function Append(blocks: seq<seq<Message>>, m: Message): (r: seq<seq<Message>>)
    requires |blocks| > 0
  {
    var n := |blocks| - 1;
    if |BlockBytes(blocks[n])| + |Rec(m)| > BLOCK_SIZE then blocks + [[m]]
    else blocks[..n] + [blocks[n] + [m]]
  }

  /** The id `saveMessage` gives the next message. */
  function NextId(blocks: seq<seq<Message>>, m: Message): (r: int)
    requires |blocks| > 0
  {
    var n := |blocks| - 1;
    if |BlockBytes(blocks[n])| + |Rec(m)| > BLOCK_SIZE then GetMsgId(n + 1, HEADER_SIZE)
    else GetMsgId(n, |BlockBytes(blocks[n])|)
  }

  lemma AppendLog(blocks: seq<seq<Message>>, m: Message)
    requires BlocksOk(blocks) && Storable(m) && |blocks| < MAX_BLOCKS
    ensures BlocksOk(Append(blocks, m))
    ensures LogOf(Append(blocks, m)) == LogOf(blocks) + [Entry(NextId(blocks, m), m)]
  {
    hide Rec, Storable, Recs, EntriesFrom;
    if |BlockBytes(blocks[|blocks| - 1])| + |Rec(m)| > BLOCK_SIZE {
      NewBlockLog(blocks, m);
    } else {
      SameBlockLog(blocks, m);
    }
  }

  lemma NewBlockLog(blocks: seq<seq<Message>>, m: Message)
    requires BlocksOk(blocks) && Storable(m) && |blocks| < MAX_BLOCKS
    ensures BlocksOk(blocks + [[m]])
    ensures LogOf(blocks + [[m]]) == LogOf(blocks) + [Entry(GetMsgId(|blocks|, HEADER_SIZE), m)]
  {
    hide Rec, Storable, Recs, EntriesFrom, BlockOk;
    var next := blocks + [[m]];
    assert next[..|blocks|] == blocks && next[|blocks|] == [m];
    assert LogOf(next) == LogOf(blocks) + EntriesFrom(GetMsgId(|blocks|, HEADER_SIZE), [m]);
    hide LogOf;
    OneMessageBlock(m);
    EntriesOne(GetMsgId(|blocks|, HEADER_SIZE), m);
  }

  lemma OneMessageBlock(m: Message)
    requires Storable(m)
    ensures BlockOk([m])
  {
    hide Rec, Storable, Recs;
    RecsOne(m);
    RecSize(m);
  }

  lemma EntriesOne(id: int, m: Message)
    ensures EntriesFrom(id, [m]) == [Entry(id, m)]
  {
    hide Rec;
    assert [m][1..] == [];
    assert EntriesFrom(id + |Rec(m)|, [m][1..]) == [];
  }

  lemma SameBlockLog(blocks: seq<seq<Message>>, m: Message)
    requires BlocksOk(blocks) && Storable(m)
    requires |BlockBytes(blocks[|blocks| - 1])| + |Rec(m)| <= BLOCK_SIZE
    ensures var n := |blocks| - 1; var next := blocks[..n] + [blocks[n] + [m]];
      && BlocksOk(next) && BlockBytes(next[n]) == BlockBytes(blocks[n]) + Rec(m)
      && LogOf(next) == LogOf(blocks) + [Entry(GetMsgId(n, |BlockBytes(blocks[n])|), m)]
  {
    hide Rec, Storable, Recs, EntriesFrom;
    var n := |blocks| - 1;
    var next := blocks[..n] + [blocks[n] + [m]];
    RecsOne(m);
    RecsAppend(blocks[n], [m]);
    EntriesAppend(GetMsgId(n, HEADER_SIZE), blocks[n], [m]);
    EntriesOne(GetMsgId(n, |BlockBytes(blocks[n])|), m);
    assert next[..n] == blocks[..n] && next[n] == blocks[n] + [m];
    assert BlockOk(blocks[n]);
    forall b | 0 <= b < |next| ensures BlockOk(next[b]) {
      if b < n { assert next[b] == blocks[b] && BlockOk(blocks[b]); }
    }
  }

  lemma RecSize(m: Message)
    requires Storable(m)
    ensures |Rec(m)| < MESSAGE_LIMIT + 20
  {
    hide Encode, Fits;
  }

  /** `CheckFile`: a block file ends with the magic number or holds only a header. */
  predicate CheckFile(file: seq<Byte>) {
    |file| == HEADER_SIZE || (|file| > HEADER_SIZE && Get32(file[|file| - 4..]) == MAGIC)
  }

  /** The magic number as it stands in a file. */
  const MAGIC_BYTES: seq<Byte> := [0x49, 0x4d, 0x49, 0x4d]

  lemma MagicBytes()
    ensures Put32(MAGIC) == MAGIC_BYTES
  {
    hide Put32, Put16, Put64;
    BigEndian(MAGIC);
    assert MAGIC / 0x100_0000 == 0x49 && MAGIC / 0x1_0000 == 0x494d && MAGIC / 0x100 == 0x49_4d49;
  }

  lemma IsMagic(s: seq<Byte>)
    requires |s| == 4
    ensures Get32(s) == MAGIC <==> s == MAGIC_BYTES
  {
    hide Get32;
    ReadBigEndian(s);
  }

  /** A file passes the check exactly when it is 32 bytes long, or longer and ends with those four. */
  lemma CheckFileIff(file: seq<Byte>)
    ensures CheckFile(file) <==> |file| == 32 || (|file| > 32 && file[|file| - 4..] == [0x49, 0x4d, 0x49, 0x4d])
  {
    if |file| > 32 { IsMagic(file[|file| - 4..]); }
  }

  /** A record is read exactly where a message of at most 32 KB is received between two magic numbers. */
  lemma ReadMessageIff(s: seq<Byte>, m: Message, size: nat)
    ensures ReadMessage(s) == Some(Received(m, size)) <==>
      && 8 <= size <= |s| && s[..4] == [0x49, 0x4d, 0x49, 0x4d] && s[size - 4..size] == [0x49, 0x4d, 0x49, 0x4d]
      && Receive(s[4..], 32768, false) == Some(Received(m, size - 8))
  {
    hide Receive, Get32;
    if |s| >= 4 { IsMagic(s[..4]); }
    if 8 <= size <= |s| { IsMagic(s[size - 4..size]); }
  }

  /** What saving a message does to the files: the record goes behind the last file's end, if it fits the 128 MB of a
      block, and otherwise behind the header of a new file. Its id is its place. */
  ghost predicate Written(was: seq<seq<Byte>>, files: seq<seq<Byte>>, m: Message, id: int)
    requires was != []
  {
    var n, rec := |was| - 1, [0x49, 0x4d, 0x49, 0x4d] + Frame(m) + [0x49, 0x4d, 0x49, 0x4d];
    if |was[n]| + |rec| <= 134217728 then
      files == was[..n] + [was[n] + rec] && id == n * 134217728 + |was[n]|
    else
      files == was + [[0x49, 0x4d, 0x49, 0x4d, 0, 1, 0, 0] + Zeros(24) + rec] && id == (n + 1) * 134217728 + 32
  }

  lemma WrittenIs(was: seq<seq<Byte>>, m: Message)
    requires was != []
    ensures var n := |was| - 1;
      if |was[n]| + |Rec(m)| <= BLOCK_SIZE then
        Written(was, was[n := was[n] + Rec(m)], m, GetMsgId(n, |was[n]|))
      else
        Written(was, was + [FileHeader() + Rec(m)], m, GetMsgId(n + 1, HEADER_SIZE))
  {
    hide Frame, FileHeader, Zeros;
    MagicBytes();
    HeaderBytes();
    var n := |was| - 1;
    assert was[n := was[n] + Rec(m)] == was[..n] + [was[n] + Rec(m)];
  }

  lemma HeaderBytes()
    ensures FileHeader() == [0x49, 0x4d, 0x49, 0x4d, 0, 1, 0, 0] + Zeros(24)
  {
    hide Put32, Zeros;
    MagicBytes();
    BigEndian(F_VERSION);
    assert [0x49, 0x4d, 0x49, 0x4d, 0, 1, 0, 0] == Put32(MAGIC) + Put32(F_VERSION);
  }

  lemma BlockPassesCheck(ms: seq<Message>)
    ensures CheckFile(BlockBytes(ms))
  {
    hide Put32, Get32;
    if ms != [] {
      var n := |ms| - 1;
      assert ms == ms[..n] + [ms[n]];
      RecsAppend(ms[..n], [ms[n]]);
      RecsOne(ms[n]);
      var file := BlockBytes(ms);
      assert file == FileHeader() + Recs(ms[..n]) + Rec(ms[n]);
      assert file[|file| - 4..] == Rec(ms[n])[|Rec(ms[n])| - 4..] == Put32(MAGIC);
      GetPut32(MAGIC);
    }
  }

  /** The block files of one server. `blocks` is what they mean. */
  class StorageFile {
    var files: seq<seq<Byte>>
    var blockNO: nat
    var lastId: int
    var lastSavedId: int
    /** The messages handed to the replication master, in order. */
    var ewt: seq<Entry>
    ghost var blocks: seq<seq<Message>>

    ghost predicate Valid()
      reads this
    {
      BlocksOk(blocks) && Renders(files, blocks) && blockNO == |blocks| - 1
    }

    ghost function Log(): (r: seq<Entry>)
      reads this
    {
      LogOf(blocks)
    }

    /** `NewStorageFile` over the files found on disk; block 0 is created when there are none. */
    constructor (disk: seq<seq<Byte>>, ghost stored: seq<seq<Message>>)
      requires disk == [] || (BlocksOk(stored) && Renders(disk, stored))
      ensures Valid() && lastId == 0 && lastSavedId == 0 && ewt == []
      ensures blocks == if disk == [] then [[]] else stored
      ensures files == if disk == [] then [FileHeader()] else disk
    {
      files := if disk == [] then [FileHeader()] else disk;
      blockNO := if disk == [] then 0 else |disk| - 1;
      lastId, lastSavedId, ewt := 0, 0, [];
      blocks := if disk == [] then [[]] else stored;
      new;
      assert Recs([]) == [] && BlockBytes([]) == FileHeader();
    }

    /** `saveMessage`: appends the record, in the next block when this one is full. */
    method SaveMessage(msg: Message) returns (msgid: int)
      requires Valid() && Storable(msg) && |files| < MAX_BLOCKS
      modifies this
      ensures Valid()
      ensures Written(old(files), files, msg, msgid)
      ensures msgid == NextId(old(blocks), msg) && blocks == Append(old(blocks), msg)
      ensures Log() == old(Log()) + [Entry(msgid, msg)]
      ensures ewt == old(ewt) + [Entry(msgid, msg)]
      ensures lastId == old(lastId) && lastSavedId == old(lastSavedId)
      ensures |old(files)| <= |files| <= |old(files)| + 1
    {
      hide Rec, Storable, Recs, LogOf, Written;
      AppendLog(blocks, msg);
      WrittenIs(files, msg);
      var offset := |files[blockNO]|;
      var buf := Rec(msg);
      ghost var was, n := blocks, blockNO;
      assert files[n] == BlockBytes(blocks[n]);
      if offset + |buf| > BLOCK_SIZE {
        files := files + [FileHeader()];
        blockNO := blockNO + 1;
        offset := HEADER_SIZE;
        blocks := blocks + [[msg]];
        RecsOne(msg);
      } else {
        blocks := blocks[..n] + [blocks[n] + [msg]];
        RecsAppend(was[n], [msg]);
        RecsOne(msg);
      }
      files := files[blockNO := files[blockNO] + buf];
      assert blockNO > n ==> files == old(files) + [FileHeader() + buf];
      msgid := GetMsgId(blockNO, offset);
      ewt := ewt + [Entry(msgid, msg)];
    }

    /** `LoadMessage`: total on every id, and right on every id of the log. */
    method LoadMessage(id: int) returns (r: Option<Message>)
      requires Valid()
      ensures r == LoadFrom(files, id)
      ensures id <= 0 ==> r == None
      ensures forall i :: 0 <= i < |Log()| && Log()[i].id == id ==> r == Some(Log()[i].msg)
    {
      hide Storable, LogOf, BlockBytes;
      r := LoadFrom(files, id);
      if id <= 0 { LoadNothing(files, blocks, id); }
      forall i | 0 <= i < |Log()| && Log()[i].id == id ensures r == Some(Log()[i].msg) {
        LoadEntry(files, blocks, i);
      }
    }
  }
}
