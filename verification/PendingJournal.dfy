/** The journal of group messages waiting to be delivered, as in im/group_message_deliver.go: an append-only
    file, a durable cursor, delivery in order with retries, and truncation. */
module PendingJournal {
  import opened Bytes
  import opened Protocol
  import opened Codec
  import opened StorageFiles

  /** The file is truncated once the cursor is past this size. */
  const TRUNCATE_SIZE := 128 * 1024 * 1024

  /** What is saved here: a pending group message whose length fits its int32. */
  predicate Pending(m: Message) {
    m.cmd == MSG_PENDING_GROUP_MESSAGE && m.body.PendingGroup? && |Frame(m)| < 0x8000_0000
  }

  /** What its journal reads for it: nothing when it is too long or its count is refused. */
  function Decoded(m: Message): (r: Option<Message>)
    requires Pending(m)
    ensures r.Some? ==> r.value.body.PendingGroup?
  {
    if |Encode(m.body, m.version)| >= STORAGE_LIMIT || CountRefused(|m.body.members|) then None
    else Some(Message(m.cmd, ToInt32(m.seqNo), m.version % 256, m.flag % 256, PendingRead(m.body, m.version)))
  }

  /** One journal record: the message between two copies of its length and the magic number. */
  function JournalRec(m: Message): (r: seq<Byte>)
    ensures |r| == |Frame(m)| + 16 >= 28
  {
    var len := Put32(|Frame(m)|);
    Put32(MAGIC) + len + Frame(m) + len + Put32(MAGIC)
  }

  function JournalRecs(ms: seq<Message>): (r: seq<Byte>) {
    if ms == [] then [] else JournalRecs(ms[..|ms| - 1]) + JournalRec(ms[|ms| - 1])
  }

  /** Byte by byte: between two magic numbers the message with its length before and behind it. */
  lemma JournalBytes(m: Message)
    ensures var len := Put32(|Frame(m)|);
      JournalRec(m) == [0x49, 0x4d, 0x49, 0x4d] + len + Frame(m) + len + [0x49, 0x4d, 0x49, 0x4d]
  {
    hide Frame, Put32;
    MagicBytes();
  }

  /** `ReadMessage` of the journal. */
  function ReadJournal(s: seq<Byte>): (r: Option<Received>)
    ensures r.Some? ==> 28 <= r.value.size <= |s|
  {
    if |s| < 8 || Get32(s[..4]) != MAGIC then None else
    match Receive(s[8..], STORAGE_LIMIT, false)
    case None => None
    case Some(got) =>
      var end := 8 + got.size;
      if |s| < end + 8 || Get32(s[end + 4..end + 8]) != MAGIC then None
      else Some(Received(got.msg, end + 8))
  }

  /** Of any bytes, a record is read exactly where a message of at most 1 MB is received behind a magic number and a
      length, and followed by a length and a magic number; the lengths are not looked at. */
  lemma ReadJournalBytes(s: seq<Byte>, m: Message, size: nat)
    ensures ReadJournal(s) == Some(Received(m, size)) <==>
      && 16 <= size <= |s| && s[..4] == [0x49, 0x4d, 0x49, 0x4d] && s[size - 4..size] == [0x49, 0x4d, 0x49, 0x4d]
      && Receive(s[8..], 1048576, false) == Some(Received(m, size - 16))
  {
    hide Receive, Get32;
    if |s| >= 8 { IsMagic(s[..4]); }
    if 16 <= size <= |s| { IsMagic(s[size - 4..size]); }
  }

  /** Whether decoding a pending group message panics: its member count is negative, or the end of its list is. */
  predicate PendingPanics(b: seq<Byte>) {
    |b| >= 38 &&
    var count := Get16(b[36..38]);
    var end := ToInt16(38 + count * 8);
    |b| >= end && (count < 0 || end < 0)
  }

  /** Whether reading a journal record panics. Nothing recovers from it: the process ends. */
  predicate ReadPanics(s: seq<Byte>) {
    |s| >= 20 && Get32(s[..4]) == MAGIC &&
    var length := Get32(s[8..12]);
    && 0 <= length < STORAGE_LIMIT && |s| - 20 >= length && s[16] == MSG_PENDING_GROUP_MESSAGE
    && PendingPanics(s[20..20 + length])
  }

  /** The messages whose record panics when it is read: short enough to be decoded, with a count that is refused. */
  predicate Panics(m: Message) {
    Pending(m) && |Encode(m.body, m.version)| < STORAGE_LIMIT && CountRefused(|m.body.members|)
  }

  lemma ReadPanicsRec(m: Message, rest: seq<Byte>)
    requires Pending(m)
    ensures ReadPanics(JournalRec(m) + rest) <==> Panics(m)
  {
    hide Encode, PutUint, GetUint, Put32, Get32, PendingPanics, CountRefused;
    var s, f, len := JournalRec(m) + rest, Frame(m), Put32(|Frame(m)|);
    var body, r := Encode(m.body, m.version), s[8..];
    assert s[..4] == Put32(MAGIC);
    assert r == f + (len + Put32(MAGIC) + rest);
    assert r[..12] == Header(|body|, m) && r[12..12 + |body|] == body;
    assert s[8..12] == r[0..4] && s[16] == r[8] && s[20..20 + |body|] == body;
    GetPut32(MAGIC);
    ReadHeader(m, |body|, r);
    PendingPanicsIff(m.body, m.version);
  }

  lemma PendingPanicsIff(body: Body, version: int)
    requires body.PendingGroup?
    ensures PendingPanics(Encode(body, version)) <==> CountRefused(|body.members|)
  {
    hide PutUint, GetUint, Put64, Get64, Put32, Get32, Put16, Get16, Slot, Put64s;
    var b := Encode(body, version);
    GetPut16(|body.members|);
    PendingTail(body, version);
    assert b == Put64s([body.appid, body.groupSender, body.deviceId, body.gid])
      + (Put32(body.timestamp) + Put16(|body.members|) + (Put64s(body.members) + body.content));
    assert b[36..38] == Put16(|body.members|);
  }

  /** The offset of the k-th record, which is its message id. */
  function Start(ms: seq<Message>, k: nat): (r: nat)
    requires k <= |ms|
  {
    HEADER_SIZE + |JournalRecs(ms[..k])|
  }

  lemma ReadJournalRec(m: Message, rest: seq<Byte>)
    requires Pending(m)
    ensures ReadJournal(JournalRec(m) + rest)
      == if Decoded(m).None? then None else Some(Received(Decoded(m).value, |JournalRec(m)|))
  {
    hide Encode, PutUint, GetUint, Put32, Get32, DecodePending, PendingRead, CountRefused;
    var s, f, len := JournalRec(m) + rest, Frame(m), Put32(|Frame(m)|);
    var body, r := Encode(m.body, m.version), s[8..];
    assert s[..4] == Put32(MAGIC);
    assert r == f + (len + Put32(MAGIC) + rest);
    assert r[..12] == Header(|body|, m) && r[12..12 + |body|] == body;
    assert s[12 + |f|..16 + |f|] == Put32(MAGIC);
    GetPut32(MAGIC);
    ReadHeader(m, |body|, r);
    ReadPendingBody(m, r);
  }

  lemma ReadPendingBody(m: Message, r: seq<Byte>)
    requires Pending(m)
    ensures Decode(m.cmd, m.version % 256, Encode(m.body, m.version)) ==
      if CountRefused(|m.body.members|) then None else Some(PendingRead(m.body, m.version))
  {
    hide Encode, DecodePending, PendingRead, CountRefused;
    PendingDecoded(m.body, m.version);
  }

  /** The first member counts that are refused, and the first behind them that are not. */
  lemma RefusedCounts(n: nat)
    ensures n <= 4091 ==> !CountRefused(n)
    ensures 4092 <= n <= 8187 ==> CountRefused(n)
    ensures 8188 <= n <= 12283 ==> !CountRefused(n)
  {
    if n <= 12283 {
      assert ToInt16(n) == n;
      assert ToInt16(38 + 8 * n) == if n <= 4091 then 38 + 8 * n else 38 + 8 * n - 0x1_0000;
    }
  }

  /** Nothing is read of a message that is too long or whose member count is refused; in the second case reading it
      ends the process. It comes back unchanged exactly up to 4091 members. With more, where the count is not
      refused, delivery goes past it with a different message. */
  lemma ReadJournalIff(m: Message, rest: seq<Byte>)
    requires Pending(m) && 0 <= m.version < 256 && 0 <= m.flag < 256 && -0x8000_0000 <= m.seqNo < 0x8000_0000
    ensures var r, n := ReadJournal(JournalRec(m) + rest), |m.body.members|;
      var short := |Encode(m.body, m.version)| < 1048576;
      && (r == None <==> !short || CountRefused(n))
      && (ReadPanics(JournalRec(m) + rest) <==> short && CountRefused(n))
      && (r == Some(Received(m, |JournalRec(m)|)) <==> short && n <= 4091)
      && (short && !CountRefused(n) && n > 4091 ==>
            r.Some? && r.value.size == |JournalRec(m)| && r.value.msg.body != m.body)
  {
    hide Encode, ReadJournal, JournalRec, PendingRead, CountRefused, Frame, ReadPanics;
    RefusedCounts(|m.body.members|);
    ReadJournalRec(m, rest);
    ReadPanicsRec(m, rest);
  }

  /** A message to a group of n. */
  function ToMany(n: nat, content: seq<Byte>): (m: Message)
  {
    Message(MSG_PENDING_GROUP_MESSAGE, 0, 0, 0, PendingGroup(7, 1, 9, 2, 0, seq(n, _ => 5), content))
  }

  /** Reading a message to 4092 members ends the process, which reads it again at each start. */
  lemma TooManyStick(rest: seq<Byte>)
    ensures Pending(ToMany(4092, [])) && ReadPanics(JournalRec(ToMany(4092, [])) + rest)
  {
    hide Put64s, ReadJournal, JournalRec, ReadPanics;
    ReadJournalIff(ToMany(4092, []), rest);
  }

  /** One to 8192 members is read with the bytes of the member list in front of its content. */
  lemma EvenMorePass(rest: seq<Byte>)
    ensures var m := ToMany(8192, []);
      && Pending(m)
      && ReadJournal(JournalRec(m) + rest) == Some(Received(ToMany(8192, Put64s(m.body.members)), |JournalRec(m)|))
  {
    hide Put64s, ReadJournal, JournalRec, Put32, Put16;
    var m := ToMany(8192, []);
    assert |Encode(m.body, 0)| == 65574 && Encode(m.body, 0)[38..] == Put64s(m.body.members);
    assert PendingRead(m.body, 0) == ToMany(8192, Put64s(m.body.members)).body by {
      assert m.body.members[..8192] == m.body.members;
    }
    hide Encode, PendingRead;
    ReadJournalRec(m, rest);
  }

  /** The records behind the k-th. */
  lemma {:induction false} JournalSplit(ms: seq<Message>, k: nat) returns (rest: seq<Byte>)
    requires k < |ms|
    ensures Start(ms, k + 1) == Start(ms, k) + |JournalRec(ms[k])|
    ensures JournalRecs(ms) == JournalRecs(ms[..k]) + JournalRec(ms[k]) + rest
    decreases |ms|
  {
    hide JournalRec;
    var n := |ms| - 1;
    assert ms[..k + 1][..k] == ms[..k] && ms[..k + 1][k] == ms[k];
    if k == n {
      assert ms[..k + 1] == ms;
      rest := [];
    } else {
      assert JournalRecs(ms) == JournalRecs(ms[..n]) + JournalRec(ms[n]);
      hide JournalRecs;
      var front := JournalSplit(ms[..n], k);
      assert ms[..n][..k] == ms[..k] && ms[..n][..k + 1] == ms[..k + 1];
      rest := front + JournalRec(ms[n]);
    }
  }

  /** What reading at a record's offset gives. */
  function Reading(m: Message): (r: Option<Received>)
    requires Pending(m)
  {
    if Decoded(m).None? then None else Some(Received(Decoded(m).value, |JournalRec(m)|))
  }

  function FileOf(ms: seq<Message>): (r: seq<Byte>) { FileHeader() + JournalRecs(ms) }

  /** Reading at a record's offset gives its message; at the end of the file nothing. */
  lemma ReadAtStart(ms: seq<Message>, k: nat)
    requires k <= |ms| && forall m :: m in ms ==> Pending(m)
    ensures Start(ms, k) <= |FileOf(ms)|
    ensures k == |ms| ==> ReadJournal(FileOf(ms)[Start(ms, k)..]) == None
    ensures k < |ms| ==> ReadJournal(FileOf(ms)[Start(ms, k)..]) == Reading(ms[k])
    ensures ReadPanics(FileOf(ms)[Start(ms, k)..]) <==> k < |ms| && Panics(ms[k])
    ensures k < |ms| ==> Start(ms, k + 1) == Start(ms, k) + |JournalRec(ms[k])|
  {
    hide JournalRec, ReadJournal, Pending, Decoded, JournalRecs, FileHeader, ReadPanics, Panics;
    if k == |ms| {
      assert ms[..k] == ms;
      assert FileOf(ms)[Start(ms, k)..] == [];
      ReadNoJournal();
    } else {
      var rest := JournalSplit(ms, k);
      assert FileOf(ms) == FileHeader() + JournalRecs(ms[..k]) + (JournalRec(ms[k]) + rest);
      assert FileOf(ms)[Start(ms, k)..] == JournalRec(ms[k]) + rest;
      assert ms[k] in ms;
      ReadJournalRec(ms[k], rest);
      ReadPanicsRec(ms[k], rest);
    }
  }

  lemma ReadNoJournal() ensures ReadJournal([]) == None && !ReadPanics([]) {}

  lemma {:induction false} StartsGrow(ms: seq<Message>, j: nat, k: nat)
    requires j <= k <= |ms|
    ensures HEADER_SIZE <= Start(ms, j) <= Start(ms, k) && (j < k ==> Start(ms, j) < Start(ms, k))
    decreases k
  {
    hide JournalRec;
    if j < k {
      StartsGrow(ms, j, k - 1);
      var rest := JournalSplit(ms, k - 1);
    }
  }

  // ---------- sending one message to its members ----------

  /** What one delivery attempt meets: the storage servers that answer, and whether the process dies after
      the message was sent but before the cursor was written. */
  datatype Attempt = Attempt(up: set<int>, crash: bool)

  /** All servers that keep a member of the message answer. */
  predicate AllUp(members: seq<Int64>, route: Int64 -> int, up: set<int>) {
    forall m :: m in members ==> route(m) in up
  }

  /** The members kept by some of the storage servers, in list order; `route` stands for `GetStorageRPCIndex`. */
  function Part(members: seq<Int64>, route: Int64 -> int, servers: set<int>): (r: seq<Int64>) {
    if members == [] then [] else
    var last := members[|members| - 1];
    Part(members[..|members| - 1], route, servers) + (if route(last) in servers then [last] else [])
  }

  function Routes(members: seq<Int64>, route: Int64 -> int): (r: set<int>) { set m | m in members :: route(m) }

  lemma {:induction false} PartUnion(members: seq<Int64>, route: Int64 -> int, servers: set<int>, i: int)
    requires i !in servers
    ensures multiset(Part(members, route, servers + {i}))
      == multiset(Part(members, route, servers)) + multiset(Part(members, route, {i}))
  {
    if members != [] { PartUnion(members[..|members| - 1], route, servers, i); }
  }

  lemma PartLast(members: seq<Int64>, route: Int64 -> int, servers: set<int>)
    requires members != []
    ensures var init, last := members[..|members| - 1], members[|members| - 1];
      Part(members, route, servers) == Part(init, route, servers) + if route(last) in servers then [last] else []
    ensures Part([], route, servers) == []
  {
  }

  lemma {:induction false} PartOf(members: seq<Int64>, route: Int64 -> int, servers: set<int>)
    ensures multiset(Part(members, route, servers)) <= multiset(members)
  {
    if members != [] {
      hide Part;
      var init, last := members[..|members| - 1], members[|members| - 1];
      PartOf(init, route, servers);
      PartLast(members, route, servers);
      MultisetAppend(Part(init, route, servers), last);
      MultisetAppend(init, last);
      assert members == init + [last];
    }
  }

  lemma {:induction false} PartOfNone(members: seq<Int64>, route: Int64 -> int)
    ensures Part(members, route, {}) == []
  {
    if members != [] { PartOfNone(members[..|members| - 1], route); }
  }

  lemma MultisetAppend(s: seq<Int64>, x: Int64)
    ensures multiset(s + [x]) == multiset(s) + multiset{x}
  {
  }

  lemma {:induction false} PartWhole(members: seq<Int64>, route: Int64 -> int, servers: set<int>)
    requires Routes(members, route) <= servers
    ensures Part(members, route, servers) == members
  {
    if members != [] {
      var init, last := members[..|members| - 1], members[|members| - 1];
      PartLast(members, route, servers);
      hide Part;
      assert last in members && Routes(init, route) <= Routes(members, route);
      PartWhole(init, route, servers);
      assert members == init + [last];
    }
  }

  lemma PartStep(members: seq<Int64>, route: Int64 -> int, k: nat, i: int)
    requires k < |members|
    ensures Part(members[..k + 1], route, {i})
      == Part(members[..k], route, {i}) + (if route(members[k]) == i then [members[k]] else [])
    ensures Routes(members[..k + 1], route) == Routes(members[..k], route) + {route(members[k])}
  {
    assert members[..k + 1][..k] == members[..k];
    assert members[..k + 1] == members[..k] + [members[k]];
  }

  lemma {:induction false} PartNone(members: seq<Int64>, route: Int64 -> int, i: int)
    requires i !in Routes(members, route)
    ensures Part(members, route, {i}) == []
  {
    if members != [] {
      var n := |members| - 1;
      assert members[n] in members;
      assert Routes(members[..n], route) <= Routes(members, route);
      PartNone(members[..n], route, i);
    }
  }

  /** First loop of `sendGroupMessage`: the members by storage server. */
  method GroupMembers(members: seq<Int64>, route: Int64 -> int) returns (batchMembers: map<int, seq<Int64>>)
    ensures batchMembers.Keys == Routes(members, route)
    ensures forall i :: i in batchMembers ==> batchMembers[i] == Part(members, route, {i})
  {
    hide Part, Routes;
    batchMembers := map[];
    assert Routes(members[..0], route) == {} by { NoRoutes(members, route); }
    for k := 0 to |members|
      invariant batchMembers.Keys == Routes(members[..k], route)
      invariant forall i :: i in batchMembers ==> batchMembers[i] == Part(members[..k], route, {i})
    {
      var index := route(members[k]);
      forall i ensures Part(members[..k + 1], route, {i})
        == Part(members[..k], route, {i}) + (if route(members[k]) == i then [members[k]] else [])
      {
        PartStep(members, route, k, i);
      }
      PartStep(members, route, k, index);
      if index !in batchMembers {
        PartNone(members[..k], route, index);
        batchMembers := batchMembers[index := [members[k]]];
      } else {
        batchMembers := batchMembers[index := batchMembers[index] + [members[k]]];
      }
    }
    assert members[..|members|] == members;
  }

  lemma NoRoutes(members: seq<Int64>, route: Int64 -> int) ensures Routes(members[..0], route) == {} {}

  /** `sendGroupMessage`: saves the chat message of the group for the members, one storage server after the other, and
      stops at the first that fails. `copies` counts the copies saved. */
  method SendGroupMessage(gm: Body, route: Int64 -> int, up: set<int>)
    returns (ok: bool, m: Message, ghost copies: multiset<Int64>)
    requires gm.PendingGroup?
    ensures ok <==> AllUp(gm.members, route, up)
    ensures ok ==> copies == multiset(gm.members)
    ensures copies <= multiset(gm.members)
    ensures m.cmd == 8 && m.version == 2 && m.flag == 0 && m.body.IM? && m.body.sender == gm.groupSender
    ensures m.body.receiver == gm.gid && m.body.timestamp == gm.timestamp && m.body.content == gm.content
  {
    hide Part, Routes, AllUp;
    var members := gm.members;
    m := Message(MSG_GROUP_IM, 0, DEFAULT_VERSION, 0, IM(gm.groupSender, gm.gid, gm.timestamp, 0, gm.content));
    var batchMembers := GroupMembers(members, route);
    copies := multiset{};
    var todo: set<int> := batchMembers.Keys;
    ghost var done: set<int> := {};
    PartOfNone(members, route);
    UpIff(members, route, up);
    while todo != {}
      invariant todo + done == batchMembers.Keys && todo !! done && done <= up
      invariant copies == multiset(Part(members, route, done))
      decreases |todo|
    {
      Pick(todo);
      var index :| index in todo;
      PartOf(members, route, done);
      if index !in up {
        return false, m, copies;
      }
      PartUnion(members, route, done, index);
      copies := copies + multiset(batchMembers[index]);
      todo, done := todo - {index}, done + {index};
    }
    PartWhole(members, route, done);
    return true, m, copies;
  }

  lemma Pick(s: set<int>)
    requires s != {}
    ensures exists i :: i in s
  {
    assert (forall i :: i !in s) ==> s == {};
  }

  lemma UpIff(members: seq<Int64>, route: Int64 -> int, up: set<int>)
    ensures AllUp(members, route, up) <==> Routes(members, route) <= up
  {
    forall m | m in members ensures route(m) in Routes(members, route) {}
  }

  // ---------- the order of first deliveries ----------

  /** How far a sequence of deliveries has got: one past the largest position. */
  function Reached(d: seq<nat>): (r: nat) {
    if d == [] then 0 else
    var r, last := Reached(d[..|d| - 1]), d[|d| - 1];
    if last + 1 > r then last + 1 else r
  }

  /** No delivery runs ahead: each is a repeat, or the first of the next message in save order. */
  predicate InSaveOrder(d: seq<nat>) {
    d == [] || (InSaveOrder(d[..|d| - 1]) && d[|d| - 1] <= Reached(d[..|d| - 1]))
  }

  lemma OrderAppend(d: seq<nat>, p: nat)
    requires InSaveOrder(d) && p <= Reached(d)
    ensures InSaveOrder(d + [p])
    ensures Reached(d + [p]) == if p == Reached(d) then p + 1 else Reached(d)
  {
    assert (d + [p])[..|d|] == d;
  }

  /** In save order, everything below the mark reached has been delivered. */
  lemma {:induction false} AllDelivered(d: seq<nat>, p: nat)
    requires InSaveOrder(d) && p < Reached(d)
    ensures p in d
  {
    var n := |d| - 1;
    if p < Reached(d[..n]) { AllDelivered(d[..n], p); } else { assert p == d[n]; }
  }

  /** The first delivery of a message comes after the first delivery of every earlier one. */
  lemma {:induction false} FirstDeliveries(d: seq<nat>, p: nat, j: nat)
    requires InSaveOrder(d) && j < |d| && p < d[j]
    ensures p in d[..j]
  {
    var n := |d| - 1;
    if j < n {
      assert d[..n][..j] == d[..j];
      FirstDeliveries(d[..n], p, j);
    } else {
      AllDelivered(d[..n], p);
    }
  }

  // ---------- the journal ----------

  /** The file holds the records, and the latest id is that of the last. */
  ghost predicate FileState(file: seq<Byte>, records: seq<Message>, latestMsgid: int) {
    && (forall m :: m in records ==> Pending(m)) && file == FileOf(records)
    && latestMsgid == if records == [] then 0 else Start(records, |records| - 1)
  }

  lemma FileIs(file: seq<Byte>, records: seq<Message>, latest: int)
    requires FileState(file, records, latest)
    ensures file == FileOf(records)
  {
    hide FileOf, Pending, Start;
  }

  lemma NoRecords(file: seq<Byte>)
    requires file == FileOf([])
    ensures FileState(file, [], 0) && CursorAt([], 0) == 0
  {
    hide FileOf;
  }

  /** One more record in the file, which becomes the latest. */
  lemma StateAppend(file: seq<Byte>, records: seq<Message>, latest: int, m: Message, sent: nat)
    requires FileState(file, records, latest) && Pending(m)
    ensures FileState(file + JournalRec(m), records + [m], |file|) && |file| > latest
    ensures file + JournalRec(m) == FileOf(records + [m])
    ensures sent <= |records| ==> CursorAt(records + [m], sent) == CursorAt(records, sent)
  {
    hide Pending, JournalRec, FileOf, Start;
    AppendStarts(records, m);
    if records != [] { StartsGrow(records + [m], |records| - 1, |records|); }
    StartsGrow(records + [m], 0, |records|);
  }

  /** The cursor when that many records of the file are done. */
  function CursorAt(records: seq<Message>, sent: nat): (r: int)
    requires sent <= |records|
  {
    if sent == 0 then 0 else Start(records, sent - 1)
  }

  /** The message was read, and every member it was read with has a copy. */
  ghost predicate Copied(m: Message, copies: multiset<Int64>) {
    Pending(m) && Decoded(m).Some? && multiset(Decoded(m).value.body.members) <= copies
  }

  lemma CopiedIs(m: Message, msg: Message, copies: multiset<Int64>)
    requires Pending(m) && Decoded(m) == Some(msg) && copies == multiset(msg.body.members)
    ensures Copied(m, copies)
  {
  }

  /** First deliveries follow save order, at most one message ahead of the cursor, and every member of a
      message the cursor has passed has a copy. */
  ghost predicate Progress(saved: seq<Message>, passed: nat, delivered: seq<nat>, copies: seq<multiset<Int64>>) {
    && passed <= |saved| == |copies|
    && InSaveOrder(delivered) && passed <= Reached(delivered) <= passed + 1 && Reached(delivered) <= |saved|
    && (forall k :: 0 <= k < passed ==> Copied(saved[k], copies[k]))
  }

  lemma ProgressWhole(saved: seq<Message>, delivered: seq<nat>, copies: seq<multiset<Int64>>)
    requires Progress(saved, |saved|, delivered, copies)
    ensures Reached(delivered) == |saved|
  {
    hide Copied, Reached, InSaveOrder;
  }

  lemma ProgressSaved(saved: seq<Message>, passed: nat, delivered: seq<nat>, copies: seq<multiset<Int64>>, m: Message)
    requires Progress(saved, passed, delivered, copies)
    ensures Progress(saved + [m], passed, delivered, copies + [multiset{}])
  {
    hide InSaveOrder, Reached, Copied;
  }

  /** A delivery adds copies; when every member has got one, it is recorded, and then the cursor may move. */
  lemma ProgressTried(saved: seq<Message>, p: nat, delivered: seq<nat>, copies: seq<multiset<Int64>>,
                      c: multiset<Int64>)
    requires Progress(saved, p, delivered, copies) && p < |saved|
    ensures |copies| == |saved|
    ensures var next := copies[p := copies[p] + c]; var more := delivered + [p];
      && Progress(saved, p, delivered, next)
      && (Copied(saved[p], c) ==> Progress(saved, p, more, next) && Progress(saved, p + 1, more, next))
  {
    hide InSaveOrder, Reached, Decoded, Pending;
    OrderAppend(delivered, p);
  }

  lemma ProgressDelivered(saved: seq<Message>, p: nat, delivered: seq<nat>, copies: seq<multiset<Int64>>,
                          c: multiset<Int64>, done: bool, passed: bool)
    requires Progress(saved, p, delivered, copies) && p < |saved| && (passed ==> done)
    requires done ==> Copied(saved[p], c)
    ensures |copies| == |saved|
    ensures Progress(saved, if passed then p + 1 else p, if done then delivered + [p] else delivered,
                     copies[p := copies[p] + c])
  {
    hide InSaveOrder, Reached, Copied;
    ProgressTried(saved, p, delivered, copies, c);
  }

  function Joined(parts: seq<seq<Message>>): (ms: seq<Message>) {
    if parts == [] then [] else Joined(parts[..|parts| - 1]) + parts[|parts| - 1]
  }

  lemma JoinedStep(parts: seq<seq<Message>>, k: nat)
    requires k < |parts|
    ensures Joined(parts[..k + 1]) == Joined(parts[..k]) + parts[k]
  {
    assert parts[..k + 1][..k] == parts[..k];
  }

  lemma {:induction false} JoinedPrefix(parts: seq<seq<Message>>, k: nat)
    requires k <= |parts|
    ensures Joined(parts[..k]) <= Joined(parts)
    decreases |parts| - k
  {
    if k < |parts| {
      JoinedStep(parts, k);
      JoinedPrefix(parts, k + 1);
    } else {
      assert parts[..k] == parts;
    }
  }

  /** Deliveries were only added, of messages from this one on. */
  ghost predicate Later(was: seq<nat>, delivered: seq<nat>, from: int) {
    was <= delivered && forall i :: |was| <= i < |delivered| ==> from <= delivered[i]
  }

  lemma NoneLater(delivered: seq<nat>, from: int)
    ensures Later(delivered, delivered, from)
  {
  }

  lemma OneLater(was: seq<nat>, mid: seq<nat>, delivered: seq<nat>, from: int)
    requires Later(was, mid, from) && (delivered == mid || exists p: nat :: from <= p && delivered == mid + [p])
    ensures Later(was, delivered, from)
  {
  }

  /** A saved message that its journal record gives back in some form. */
  predicate Readable(m: Message) { Pending(m) && Decoded(m).Some? }

  lemma Regroup(a: seq<Message>, b: seq<Message>, c: seq<Message>)
    ensures a + b + c == a + (b + c)
  {
  }

  /** Nothing can be read at this place of the file, whatever is appended. */
  ghost predicate Blocked(file: seq<Byte>, at: int) {
    0 <= at <= |file| && forall rest :: ReadJournal(file[at..] + rest) == None
  }

  lemma BlockedStays(file: seq<Byte>, more: seq<Byte>, at: int)
    ensures Blocked(file, at) ==> Blocked(file + more, at)
  {
    hide ReadJournal;
    if Blocked(file, at) {
      forall rest ensures ReadJournal((file + more)[at..] + rest) == None {
        assert (file + more)[at..] + rest == file[at..] + (more + rest);
      }
    }
  }

  lemma BlockedRead(file: seq<Byte>, at: int)
    requires Blocked(file, at)
    ensures 0 <= at <= |file| && ReadJournal(file[at..]) == None
  {
    hide ReadJournal;
    assert file[at..] + [] == file[at..];
  }

  /** Leaving out the first messages of the file, none of which has been delivered. */
  lemma ProgressHides(past: seq<Message>, records: seq<Message>, h: nat, delivered: seq<nat>,
                      copies: seq<multiset<Int64>>)
    requires Progress(past + records, |past|, delivered, copies) && Reached(delivered) == |past| && h <= |records|
    ensures Progress(past + records[h..], |past|, delivered, copies[..|past|] + copies[|past| + h..])
  {
    hide InSaveOrder, Reached, Copied;
    forall k | 0 <= k < |past|
      ensures Copied((past + records[h..])[k], (copies[..|past|] + copies[|past| + h..])[k])
    {
      assert (past + records)[k] == (past + records[h..])[k];
    }
  }

  /** What a turn of the sending loop comes to, with the size of the record it has passed. */
  datatype Turn = Stop(crashed: bool) | Skipped(size: nat) | Delivered(size: nat)

  lemma ReadingIs(m: Message)
    requires Pending(m)
    ensures Reading(m).Some? ==> Decoded(m) == Some(Reading(m).value.msg) && Reading(m).value.size == |JournalRec(m)|
  {
    hide Decoded, Pending, JournalRec;
  }

  class GroupMessageDeliver {
    /** On disk. */
    var file: seq<Byte>
    var cursorFile: int
    /** In memory. */
    var latestMsgid: int
    var latestSendedMsgid: int
    const route: Int64 -> int

    /** The messages of files truncated since, those in the file, and how many of these the cursor has passed. */
    ghost var past: seq<Message>
    ghost var records: seq<Message>
    ghost var sent: nat
    /** How many of the file's messages an old cursor hides after a crash; 0 in a life without one. */
    ghost var hidden: nat
    /** The positions of the messages delivered to all members, in the order it happened. */
    ghost var delivered: seq<nat>
    /** The copies saved for each message. */
    ghost var copies: seq<multiset<Int64>>

    /** The messages delivery takes account of, in save order. */
    ghost function Saved(): (r: seq<Message>)
      reads `past, `records, `hidden
    {
      past + if hidden <= |records| then records[hidden..] else []
    }

    ghost predicate Valid()
      reads this
    {
      && FileState(file, records, latestMsgid)
      && hidden <= sent <= |records| && latestSendedMsgid == cursorFile == CursorAt(records, sent)
      && Progress(Saved(), |past| + sent - hidden, delivered, copies)
      && (hidden > 0 ==> Readable(records[hidden - 1]))
    }

    /** The files as a crash inside the truncation leaves them: the cursor is still that of the old messages. */
    ghost predicate CutOff()
      reads this
    {
      && (forall m :: m in records ==> Pending(m)) && file == FileOf(records)
      && hidden == sent == 0 < cursorFile
      && Progress(Saved(), |past|, delivered, copies) && Reached(delivered) == |past|
    }

    /** A process that has started on them, and perhaps saved messages since. */
    ghost predicate Stale()
      reads this
    {
      CutOff() && FileState(file, records, latestMsgid) && latestSendedMsgid == cursorFile
    }

    /** In which nothing can be sent: the messages do not reach past the old cursor yet, or whatever is saved, nothing
        can be read where it stands. */
    ghost predicate Silent()
      reads this
    {
      Stale() && (latestMsgid <= cursorFile || Blocked(file, cursorFile))
    }

    constructor (r: Int64 -> int)
      ensures Valid() && Saved() == [] && hidden == 0 && delivered == [] && route == r
    {
      route := r;
      file, cursorFile, latestMsgid, latestSendedMsgid := FileHeader(), 0, 0, 0;
      past, records, sent, hidden, delivered, copies := [], [], 0, 0, [], [];
      new;
      assert FileHeader() + [] == FileHeader();
    }

    /** `readLatestMessageID`: finds the last record from the length and magic number at the end of the file. */
    method ReadLatestMessageID()
      requires (forall m :: m in records ==> Pending(m)) && file == FileOf(records)
      modifies `latestMsgid
      ensures latestMsgid == if records == [] then 0 else Start(records, |records| - 1)
    {
      hide Pending, FileHeader, FileOf, Start, Get32;
      LastRecord(records);
      var offset := |file| - 8;
      if offset <= HEADER_SIZE {
        latestMsgid := 0;
        return;
      }
      var msgLen, magic := Get32(file[offset..offset + 4]), Get32(file[offset + 4..offset + 8]);
      assert magic == MAGIC;
      latestMsgid := offset - msgLen - 8;
    }

    /** A restart of the process: only the two files survive. */
    method Restart()
      requires Valid() || CutOff()
      modifies `latestMsgid, `latestSendedMsgid
      ensures old(Valid()) ==> Valid() && latestMsgid == old(latestMsgid)
      ensures old(CutOff()) ==> Stale()
    {
      hide Pending, FileHeader, Progress, Readable, Start;
      latestSendedMsgid := cursorFile;
      ReadLatestMessageID();
    }

    /** `SaveMessage`: appends the message; it is now the latest. */
    method SaveMessage(m: Message) returns (msgid: int)
      requires (Valid() || Stale()) && Pending(m)
      modifies `file, `latestMsgid, `records, `copies
      ensures (old(Valid()) ==> Valid()) && (old(Stale()) ==> Stale())
      ensures msgid == |old(file)| == latestMsgid > old(latestMsgid)
      ensures file == old(file) + JournalRec(m)
      ensures var len := Put32(|Frame(m)|);
        file == old(file) + ([0x49, 0x4d, 0x49, 0x4d] + len + Frame(m) + len + [0x49, 0x4d, 0x49, 0x4d])
      ensures records == old(records) + [m] && copies == old(copies) + [multiset{}]
    {
      hide Pending, JournalRec, Progress, FileOf, Start, FileState, CursorAt, Readable, Reached, Frame, Put32;
      msgid := |file|;
      JournalBytes(m);
      StateAppend(file, records, latestMsgid, m, sent);
      file := file + JournalRec(m);
      ProgressSaved(Saved(), |past| + sent - hidden, delivered, copies, m);
      assert past + (records + [m])[hidden..] == past + records[hidden..] + [m];
      records, copies := records + [m], copies + [multiset{}];
      latestMsgid := msgid;
    }

    /** The saves of other threads. What cannot be read stays so. */
    method SaveAll(ms: seq<Message>)
      requires (Valid() || Stale()) && forall m :: m in ms ==> Pending(m)
      modifies `file, `latestMsgid, `records, `copies
      ensures (old(Valid()) ==> Valid()) && (old(Stale()) ==> Stale())
      ensures records == old(records) + ms && Saved() == old(Saved()) + ms && latestMsgid >= old(latestMsgid)
      ensures old(Blocked(file, cursorFile)) ==> Blocked(file, cursorFile)
    {
      hide Pending, FileState, Progress, CursorAt, Blocked, JournalRec, Readable, Reached;
      for k := 0 to |ms|
        invariant (old(Valid()) ==> Valid()) && (old(Stale()) ==> Stale())
        invariant records == old(records) + ms[..k] && latestMsgid >= old(latestMsgid)
        invariant old(Blocked(file, cursorFile)) ==> Blocked(file, cursorFile)
      {
        ghost var was := file;
        var _ := SaveMessage(ms[k]);
        BlockedStays(was, JournalRec(ms[k]), cursorFile);
        assert ms[..k + 1] == ms[..k] + [ms[k]];
      }
      assert ms[..|ms|] == ms;
      assert (old(records) + ms)[hidden..] == old(records)[hidden..] + ms;
    }

    /** If the old cursor stands on a readable record of the new file, delivery goes on behind that record, and what
        comes up to it is hidden for good: the state is a valid one of a journal without these messages. */
    ghost method Hide(k: nat)
      requires Stale() && k < |records| && cursorFile == Start(records, k) && Readable(records[k])
      modifies `hidden, `sent, `copies
      ensures Valid() && hidden == sent == k + 1 && Saved() == past + records[k + 1..]
    {
      hide FileState, Start, Readable;
      ProgressHides(past, records, k + 1, delivered, copies);
      hidden, sent, copies := k + 1, k + 1, copies[..|past|] + copies[|past| + k + 1..];
    }

    lemma ValidFacts()
      requires Valid()
      ensures hidden <= sent <= |records| && latestSendedMsgid == cursorFile == CursorAt(records, sent)
      ensures hidden > 0 ==> Readable(records[hidden - 1])
      ensures Saved() == past + records[hidden..] && Progress(Saved(), |past| + sent - hidden, delivered, copies)
      ensures FileState(file, records, latestMsgid)
    {
      hide FileState, Progress, Readable, CursorAt;
    }

    lemma ValidIs()
      requires hidden <= sent <= |records| && latestSendedMsgid == cursorFile == CursorAt(records, sent)
      requires hidden > 0 ==> Readable(records[hidden - 1])
      requires Progress(Saved(), |past| + sent - hidden, delivered, copies) && FileState(file, records, latestMsgid)
      ensures Valid()
    {
      hide FileState, Progress, Readable, CursorAt, Saved;
    }

    lemma StaleFacts()
      requires Stale()
      ensures latestSendedMsgid == cursorFile > 0 && hidden == sent == 0 && !Valid()
    {
      hide FileState, Progress, Reached;
    }

    /** The delivery does not find all servers up. */
    predicate Fails(m: Message, attempt: Attempt) {
      m.body.PendingGroup? && !AllUp(m.body.members, route, attempt.up)
    }

    /** A saved message can be read, and all servers are up for what is read. */
    predicate Delivers(m: Message, attempt: Attempt) {
      Pending(m) && Decoded(m).Some? && !Fails(Decoded(m).value, attempt)
    }

    lemma DeliversIs(m: Message, attempt: Attempt)
      requires Pending(m) && Decoded(m).Some?
      ensures Delivers(m, attempt) <==> !Fails(Decoded(m).value, attempt)
    {
    }

    lemma FailsIs(m: Message, attempt: Attempt)
      ensures m.body.PendingGroup? ==> (Fails(m, attempt) <==> !AllUp(m.body.members, route, attempt.up))
    {
    }

    lemma ReadableIs(m: Message) requires Pending(m) && Decoded(m).Some? ensures Readable(m) {}

    /** One turn of the loop of `sendPendingMessage`, for the first record past the cursor: deliver what was read
        of it, and if that succeeds write the cursor. The process may die in between. */
    method Deliver(msg: Message, msgid: int, attempt: Attempt) returns (ok: bool)
      requires Valid() && sent < |records| && msgid == Start(records, sent)
      requires Pending(records[sent]) && Decoded(records[sent]) == Some(msg)
      modifies `cursorFile, `latestSendedMsgid, `sent, `delivered, `copies
      ensures Valid()
      ensures ok <==> !Fails(msg, attempt) && !attempt.crash
      ensures ok ==> sent == old(sent) + 1 && latestSendedMsgid == msgid
      ensures !ok ==> sent == old(sent) && latestSendedMsgid == old(latestSendedMsgid)
      ensures delivered == old(delivered) + if Fails(msg, attempt) then [] else [|past| + old(sent) - hidden]
    {
      hide FileState, Progress, Start, CursorAt, AllUp, Routes, Part, Decoded, Pending, InSaveOrder, Reached, Copied,
        Readable, Saved, Valid, Fails, Panics, JournalRec, Frame;
      FailsIs(msg, attempt);
      ValidFacts();
      ghost var saved, p := Saved(), |past| + sent - hidden;
      CursorNext(records, sent);
      var done, _, saves := SendGroupMessage(msg.body, route, attempt.up);
      assert saved[p] == records[sent];
      if done { CopiedIs(saved[p], msg, saves); }
      ok := done && !attempt.crash;
      ProgressDelivered(saved, p, delivered, copies, saves, done, ok);
      copies := copies[p := copies[p] + saves];
      if done {
        delivered := delivered + [p];
      }
      if ok {
        latestSendedMsgid, cursorFile, sent := msgid, msgid, sent + 1;
      }
      ValidIs();
    }

    /** Reads the record at an offset, after other threads have saved some messages. */
    method ReadAt(offset: int, ms: seq<Message>, ghost k: nat) returns (panics: bool, m: Option<Received>)
      requires if Valid() then k <= |records| && offset == Start(records, k)
               else Stale() && Blocked(file, cursorFile) && offset == cursorFile
      requires forall m :: m in ms ==> Pending(m)
      modifies `file, `latestMsgid, `records, `copies
      ensures records == old(records) + ms && Saved() == old(Saved()) + ms && latestMsgid >= old(latestMsgid)
      ensures old(Valid()) ==>
        && Valid() && offset == Start(records, k)
        && (k == |records| ==> !panics && m == None)
        && (k < |records| ==> Pending(records[k]) && m == Reading(records[k]) && (panics <==> Panics(records[k])))
      ensures !old(Valid()) ==> Stale() && Blocked(file, cursorFile) && m == None
    {
      hide FileState, Pending, JournalRec, ReadJournal, FileOf, Progress, Start, CursorAt, Decoded, Readable, Blocked,
        ReadPanics, Panics, Reached;
      ghost var valid := Valid();
      if valid { StartStays(records, ms, k); }
      SaveAll(ms);
      if valid { ReadJournalFile(records, k, file, latestMsgid); } else { BlockedRead(file, cursorFile); }
      panics, m := ReadPanics(file[offset..]), ReadJournal(file[offset..]);
    }

    /** The n messages from this one on were delivered with the first n attempts. */
    ghost predicate AllDeliver(ms: seq<Message>, from: nat, n: nat, attempts: seq<Attempt>) {
      from + n <= |ms| && n <= |attempts| && forall i: nat :: i < n ==> Delivers(ms[from + i], attempts[i])
    }

    lemma NoneDelivered(ms: seq<Message>, from: nat, attempts: seq<Attempt>)
      requires from <= |ms|
      ensures AllDeliver(ms, from, 0, attempts)
    {
    }

    lemma AllDeliverStep(ms: seq<Message>, more: seq<Message>, from: nat, n: nat, attempts: seq<Attempt>)
      requires AllDeliver(ms, from, n, attempts)
      ensures AllDeliver(ms + more, from, n, attempts)
      ensures from + n < |ms| && n < |attempts| && Delivers(ms[from + n], attempts[n]) ==>
        AllDeliver(ms, from, n + 1, attempts)
    {
      hide Delivers;
    }

    /** The messages up to this one have been delivered, each with an attempt that succeeds, and the next one stops
        delivery: reading it panics, or it cannot be read, or its attempt fails, or there is none left. */
    ghost predicate Sent(ms: seq<Message>, from: nat, to: nat, attempts: seq<Attempt>, crashed: bool)
    {
      && from <= to && AllDeliver(ms, from, to - from, attempts)
      && (to < |ms| && !crashed ==>
            Unread(ms[to]) || (to - from < |attempts| && !Delivers(ms[to], attempts[to - from])))
      && (to < |ms| && Panics(ms[to]) ==> crashed)
      && (crashed ==> to < |ms| && Dies(ms[to], attempts, to - from))
    }

    /** The process ends at this message: reading it panics, or its attempt does not come back. */
    predicate Dies(m: Message, attempts: seq<Attempt>, k: nat) {
      Panics(m) || k >= |attempts| || attempts[k].crash
    }

    /** When delivery stops like that. */
    lemma SentIs(ms: seq<Message>, from: nat, to: nat, attempts: seq<Attempt>, crashed: bool)
      requires from <= to && AllDeliver(ms, from, to - from, attempts)
      requires to < |ms| && !crashed ==>
        || (Unread(ms[to]) && !Panics(ms[to]))
        || (Readable(ms[to]) && to - from < |attempts| && !Delivers(ms[to], attempts[to - from]))
      requires crashed ==> to < |ms| && Dies(ms[to], attempts, to - from)
      ensures Sent(ms, from, to, attempts, crashed)
    {
      hide Delivers, AllDeliver;
    }

    /** Delivery stops at this message, which is never read or whose attempt fails; or the process does. */
    ghost predicate Stops(ms: seq<Message>, from: nat, to: nat, attempts: seq<Attempt>, crashed: bool) {
      from <= to < |ms| &&
      if crashed then Dies(ms[to], attempts, to - from)
      else Unread(ms[to]) || (to - from < |attempts| && !Delivers(ms[to], attempts[to - from]))
    }

    lemma SentFacts(ms: seq<Message>, from: nat, to: nat, attempts: seq<Attempt>, crashed: bool)
      requires Sent(ms, from, to, attempts, crashed)
      ensures from <= to <= |ms| && AllDeliver(ms, from, to - from, attempts)
      ensures if to < |ms| then Stops(ms, from, to, attempts, crashed) else !crashed
    {
      hide Delivers, Unread, Dies;
    }

    /** A flush of messages of which the first `from` had been sent. The first sending delivers those up to `mid` and
        stops; the second goes on from there, but only when the cursor is past 128 MB. */
    ghost predicate Flushed(ms: seq<Message>, from: nat, mid: nat, to: nat, first: seq<Attempt>, second: seq<Attempt>,
                            crashed: bool, dies: bool)
    {
      && from <= mid <= to <= |ms| && AllDeliver(ms, from, mid - from, first) && AllDeliver(ms, mid, to - mid, second)
      && if Large(ms, mid) && !(crashed && to == mid < |ms| && Stops(ms, from, mid, first, true)) then
           if to < |ms| then Stops(ms, mid, to, second, crashed) else crashed == dies
         else
           to == mid && if to < |ms| then Stops(ms, from, mid, first, crashed) else !crashed
    }

    /** With that many messages sent, the cursor is past 128 MB. */
    predicate Large(ms: seq<Message>, sent: nat) { 0 < sent <= |ms| && Start(ms, sent - 1) > 134217728 }

    /** After which the file is emptied. */
    predicate AllGone(ms: seq<Message>, mid: nat, to: nat) { Large(ms, mid) && to == |ms| }

    lemma LargeIs(ms: seq<Message>, more: seq<Message>, sent: nat)
      requires sent <= |ms|
      ensures Large(ms, sent) <==> CursorAt(ms, sent) > TRUNCATE_SIZE
      ensures Large(ms + more, sent) == Large(ms, sent)
    {
      hide JournalRecs;
      if sent > 0 { StartStays(ms, more, sent - 1); }
    }

    /** The turn of the loop that tries the next message. */
    method TryNext(msg: Message, msgid: int, attempts: seq<Attempt>, tried: nat, ghost before: seq<nat>)
      returns (ok: bool)
      requires Valid() && tried <= sent < |records| && tried < |attempts| && msgid == Start(records, sent)
      requires Pending(records[sent]) && Decoded(records[sent]) == Some(msg)
      requires AllDeliver(records, sent - tried, tried, attempts)
      requires Later(before, delivered, |past| + sent - tried - hidden)
      modifies `cursorFile, `latestSendedMsgid, `sent, `delivered, `copies
      ensures Valid() && Later(before, delivered, |past| + old(sent) - tried - hidden)
      ensures ok ==> sent == old(sent) + 1 && latestSendedMsgid == msgid
      ensures ok ==> AllDeliver(records, old(sent) - tried, tried + 1, attempts)
      ensures !ok ==> sent == old(sent) && Sent(records, sent - tried, sent, attempts, attempts[tried].crash)
    {
      hide Valid, Saved, Pending, Decoded, Start, Fails, Delivers, AllDeliver, Sent, Later, Progress, FileState,
        CursorAt, Panics, Readable, Unread;
      ghost var was := delivered;
      DeliversIs(records[sent], attempts[tried]);
      AllDeliverStep(records, [], sent - tried, tried, attempts);
      ValidFacts();
      ok := Deliver(msg, msgid, attempts[tried]);
      assert was + [] == was;
      OneLater(before, was, delivered, |past| + old(sent) - tried - hidden);
      if !ok {
        assert Readable(records[sent]) by { ReadableIs(records[sent]); }
        SentIs(records, sent - tried, sent, attempts, attempts[tried].crash);
      }
    }

    /** One turn of the loop: reads at the offset and skips what the cursor has passed, or tries what comes next. */
    method OneTurn(offset: int, arriving: seq<Message>, attempts: seq<Attempt>, tried: nat, ghost k: nat,
                   ghost before: seq<nat>) returns (turn: Turn)
      requires forall m :: m in arriving ==> Pending(m)
      requires if Valid() then Turning(offset, attempts, tried, k, before)
               else Stale() && Blocked(file, cursorFile) && offset == cursorFile
      modifies this
      ensures past == old(past) && hidden == old(hidden) && Saved() == old(Saved()) + arriving
      ensures records == old(records) + arriving
      ensures old(Valid()) && turn.Stop? ==>
        && Valid() && sent == old(sent) && Sent(records, sent - tried, sent, attempts, turn.crashed)
        && Later(before, delivered, |past| + sent - tried - hidden)
      ensures old(Valid()) && turn.Skipped? ==>
        && sent == old(sent) == k + 1 && Valid() && Turning(offset + turn.size, attempts, tried, k + 1, before)
      ensures old(Valid()) && turn.Delivered? ==>
        && sent == old(sent) + 1 == k + 1 && Valid()
        && Turning(offset + turn.size, attempts, tried + 1, k + 1, before)
      ensures !old(Valid()) ==>
        && turn.Stop? && Stale() && Blocked(file, cursorFile) && cursorFile == old(cursorFile)
        && latestMsgid >= old(latestMsgid) && delivered == old(delivered) && sent == old(sent)
    {
      hide FileState, Pending, JournalRec, Progress, Start, CursorAt, Decoded, Delivers, Unread, Readable, Blocked,
        Panics, Reached, Later, Valid, Stale, CutOff, Saved, AllDeliver, Sent, Reading;
      ghost var valid := Valid();
      if valid { AllDeliverStep(records, arriving, sent - tried, tried, attempts); } else { StaleFacts(); }
      var panics, m := ReadAt(offset, arriving, k);
      if valid { ValidFacts(); } else { StaleFacts(); }
      if panics {
        if valid {
          PanicsUnread(records[k]);
          UnreadIs(records, sent, hidden, k, past, delivered, copies);
          SentIs(records, sent - tried, sent, attempts, true);
        }
        return Stop(true);
      }
      if m.None? {
        if valid {
          if k < |records| { UnreadIs(records, sent, hidden, k, past, delivered, copies); }
          SentIs(records, sent - tried, sent, attempts, false);
        }
        return Stop(false);
      }
      ReadingIs(records[k]);
      SizeOfRecord(records, k);
      SentExactly(records, sent, k);
      if offset <= latestSendedMsgid {
        return Skipped(m.value.size);
      }
      if tried == |attempts| {
        SentIs(records, sent - tried, sent, attempts, true);
        return Stop(true);
      }
      var ok := TryNext(m.value.msg, offset, attempts, tried, before);
      if !ok {
        return Stop(attempts[tried].crash);
      }
      ValidFacts();
      return Delivered(m.value.size);
    }

    /** The loop stands before the k-th record, which is the next to send, or at the start the last one sent. */
    ghost predicate Turning(offset: int, attempts: seq<Attempt>, tried: nat, k: nat, before: seq<nat>)
      reads this
    {
      && tried <= sent && tried <= |attempts| && k <= |records| && offset == Start(records, k)
      && (k == sent || (k + 1 == sent && tried == 0))
      && AllDeliver(records, sent - tried, tried, attempts)
      && Later(before, delivered, |past| + sent - tried - hidden)
    }

    /** `sendPendingMessage`: delivers the unsent records in order until one fails or cannot be read; the cursor
        follows each success. `attempts` says what each delivery meets; with none left, the process dies, as it does
        when reading a record panics. `arrivals` are the messages other threads save before each read. Where nothing
        can be read at an old cursor, nothing is sent. */
    method SendPendingMessage(attempts: seq<Attempt>, arrivals: seq<seq<Message>>)
      returns (crashed: bool, ghost saved: seq<Message>)
      requires Valid() || (Stale() && Blocked(file, cursorFile))
      requires forall ms, m :: ms in arrivals && m in ms ==> Pending(m)
      modifies this
      ensures past == old(past) && hidden == old(hidden) && records == old(records) + saved && saved <= Joined(arrivals)
      ensures old(Valid()) ==>
        && Valid() && old(sent) <= sent && Saved() == old(Saved()) + saved
        && Sent(records, old(sent), sent, attempts, crashed)
        && Later(old(delivered), delivered, |past| + old(sent) - hidden)
      ensures !old(Valid()) ==>
        && Stale() && Blocked(file, cursorFile) && cursorFile == old(cursorFile) && latestMsgid >= old(latestMsgid)
        && delivered == old(delivered)
    {
      hide FileState, Pending, JournalRec, Progress, Start, CursorAt, Joined, Decoded, Delivers, Unread, Readable,
        Blocked, Panics, Reached, Later, Valid, Stale, CutOff, Saved, AllDeliver, Sent;
      ghost var valid := Valid();
      if valid { ValidFacts(); } else { StaleFacts(); }
      var offset := if latestSendedMsgid == 0 then HEADER_SIZE else latestSendedMsgid;
      ghost var k: nat := 0;
      if valid { k := Resume(records, sent); }
      var tried, seen := 0, 0;
      saved := [];
      NothingJoined(arrivals);
      NoneLater(delivered, |past| + sent - hidden);
      if valid { NoneDelivered(records, sent, attempts); }
      while true
        invariant past == old(past) && hidden == old(hidden) && seen <= |arrivals|
        invariant records == old(records) + saved && saved == Joined(arrivals[..seen])
        invariant Saved() == old(Saved()) + saved && 0 <= tried == sent - old(sent)
        invariant valid ==> Valid() && k <= |records| && Turning(offset, attempts, tried, k, old(delivered))
        invariant !valid ==> Stale() && Blocked(file, cursorFile) && offset == cursorFile == old(cursorFile)
        invariant !valid ==> delivered == old(delivered) && latestMsgid >= old(latestMsgid)
        decreases |arrivals| - seen, |records| - k
      {
        if !valid { StaleFacts(); }
        var arriving := if seen < |arrivals| then arrivals[seen] else [];
        if seen < |arrivals| {
          JoinedStep(arrivals, seen);
          seen := seen + 1;
        }
        JoinedPrefix(arrivals, seen);
        var turn := OneTurn(offset, arriving, attempts, tried, k, old(delivered));
        Regroup(old(Saved()), saved, arriving);
        Regroup(old(records), saved, arriving);
        saved := saved + arriving;
        match turn {
          case Stop(died) => return died, saved;
          case Skipped(size) => offset, k := offset + size, k + 1;
          case Delivered(size) => offset, k, tried := offset + size, k + 1, tried + 1;
        }
      }
    }

    /** `truncateFile`: empties the file once nothing in it is unsent. If the process dies before the cursor is
        written, that is still the old one. */
    method TruncateFile(dies: bool)
      requires Valid() && sent == |records| && cursorFile > 0
      modifies this
      ensures past == old(Saved()) == Saved() && records == [] && sent == 0 && hidden == 0
      ensures delivered == old(delivered) && copies == old(copies)
      ensures if dies then CutOff() && cursorFile == old(cursorFile) else Valid() && cursorFile == 0
      ensures |file| == 32
    {
      hide Pending, FileHeader, FileOf, Start, Progress, FileState, CursorAt, Readable, Valid, CutOff, Reached;
      ValidFacts();
      HeaderStays(records);
      FileIs(file, records, latestMsgid);
      ProgressWhole(Saved(), delivered, copies);
      file := file[..HEADER_SIZE];
      past, records, sent, hidden := Saved(), [], 0, 0;
      assert past + [] == past;
      if dies {
        CutOffIs();
        return;
      }
      latestMsgid, latestSendedMsgid, cursorFile := 0, 0, 0;
      NoRecords(file);
      ValidIs();
    }

    lemma CutOffIs()
      requires file == FileOf([]) && records == [] && hidden == sent == 0 < cursorFile
      requires Progress(Saved(), |past|, delivered, copies) && Reached(delivered) == |past|
      ensures CutOff()
    {
      hide Progress, FileOf, Reached, Saved;
    }

    /** What `flushPendingMessage` does under the lock: sends what has come since, and empties the file if all is
        sent. */
    method SendAndTruncate(late: seq<Message>, second: seq<Attempt>, dies: bool) returns (crashed: bool)
      requires if Valid() then 0 < sent else Stale() && Blocked(file, cursorFile) && latestMsgid > cursorFile
      requires forall m :: m in late ==> Pending(m)
      modifies this
      ensures old(delivered) <= delivered
      ensures old(Valid()) ==> var ms, now := old(records) + late, old(Saved()) + late;
        && Saved() == now && |past| + sent - hidden >= |old(past)| + old(sent) - old(hidden)
        && if records == ms && sent < |ms| then
             && Valid() && past == old(past) && old(sent) <= sent && Stops(ms, old(sent), sent, second, crashed)
             && AllDeliver(ms, old(sent), sent - old(sent), second)
           else
             && records == [] && past == now && |file| == 32 && crashed == dies && old(sent) <= |ms|
             && (if dies then CutOff() else Valid() && cursorFile == 0)
             && AllDeliver(ms, old(sent), |ms| - old(sent), second)
      ensures !old(Valid()) ==>
        && Stale() && Blocked(file, cursorFile) && delivered == old(delivered) && cursorFile == old(cursorFile)
        && past == old(past) && records == old(records) + late
    {
      hide Pending, FileHeader, Progress, Start, CursorAt, FileState, InSaveOrder, Reached, Delivers, Unread, Joined,
        Blocked, Readable, Panics, Sent, Valid, Stale, CutOff, Saved, AllDeliver, Stops;
      ghost var valid, mid := Valid(), sent;
      SaveAll(late);
      ghost var ms := records;
      if valid {
        ValidFacts();
        LatestIsLast(records, sent, file, latestMsgid);
        NoneDelivered(records, mid, second);
      } else {
        StaleFacts();
      }
      crashed := false;
      if latestMsgid > latestSendedMsgid {
        NothingJoined([]);
        ghost var more;
        ghost var now := Saved();
        crashed, more := SendPendingMessage(second, []);
        assert more == [] && ms + [] == ms && now + [] == now;
        if valid { SentFacts(records, mid, sent, second, crashed); }
      }
      if valid {
        ValidFacts();
        LatestIsLast(records, sent, file, latestMsgid);
        CursorPositive(records, sent);
      } else {
        StaleFacts();
      }
      assert valid ==> AllDeliver(ms, mid, sent - mid, second) && records == ms;
      if !crashed && latestMsgid == latestSendedMsgid {
        assert sent == |ms|;
        TruncateFile(dies);
        crashed := dies;
      }
    }

    /** `flushPendingMessage`: sends what is pending; a file past 128 MB is emptied, but only when the cursor
        has reached its last message. Other threads save `arrivals` between the reads of the first sending, and
        `late` before this one has taken the lock to empty the file; the process may die while it does. While an old
        cursor is past all messages, or nothing can be read where it stands, nothing is sent and nothing emptied. */
    method FlushPendingMessage(first: seq<Attempt>, arrivals: seq<seq<Message>>, late: seq<Message>,
                               second: seq<Attempt>, dies: bool) returns (crashed: bool, ghost saved: seq<Message>)
      requires (Valid() || Silent()) && forall m :: m in late ==> Pending(m)
      requires forall ms, m :: ms in arrivals && m in ms ==> Pending(m)
      modifies this
      ensures Came(saved, arrivals, late)
      ensures old(Valid()) ==>
        && (Valid() || (dies && crashed && CutOff() && past == old(Saved()) + saved && records == []))
        && Saved() == old(Saved()) + saved && |old(past)| + old(sent) - old(hidden) <= |past| + sent - hidden
        && (past != old(past) ==> past == old(Saved()) + saved && records == [])
      ensures old(delivered) <= delivered
      ensures old(Valid()) && old(sent) == |old(records)| ==>
        !crashed && saved == [] && file == old(file) && cursorFile == old(cursorFile) && sent == old(sent)
      ensures old(Valid()) && old(sent) < |old(records)| ==>
        exists mid: nat, to: nat ::
          && Flushed(old(records) + saved, old(sent), mid, to, first, second, crashed, dies)
          && if AllGone(old(records) + saved, mid, to) then
               records == [] && |file| == 32 && (!crashed ==> cursorFile == 0)
             else
               records == old(records) + saved && sent == to
      ensures !old(Valid()) ==>
        && Silent() && delivered == old(delivered) && cursorFile == old(cursorFile)
        && past == old(past) && records == old(records) + saved
        && (old(Blocked(file, cursorFile)) ==> Blocked(file, cursorFile))
    {
      hide Pending, FileHeader, Progress, Start, CursorAt, FileState, InSaveOrder, Reached, Delivers, Unread, Joined,
        Came, Blocked, Readable, Panics, Sent, Valid, Stale, CutOff, Saved, AllDeliver, Stops, Large;
      ghost var valid, from := Valid(), sent;
      if valid { ValidFacts(); } else { StaleFacts(); }
      crashed, saved := false, [];
      assert old(Saved()) + [] == old(Saved()) && old(records) + [] == old(records);
      CameIs(saved, arrivals, late, 0);
      if valid { LatestIsLast(records, sent, file, latestMsgid); }
      if latestMsgid > latestSendedMsgid {
        assert !valid ==> Blocked(file, cursorFile);
        crashed, saved := SendPendingMessage(first, arrivals);
        ghost var n: nat, mid: nat := |saved|, sent;
        ghost var to := mid;
        CameIs(saved, arrivals, late, n);
        if valid {
          ValidFacts();
          CursorPositive(records, sent);
          SentFacts(records, from, mid, first, crashed);
          NoneDelivered(records, mid, second);
          LargeIs(records, late, mid);
          AllDeliverStep(records, late, from, mid - from, first);
        } else {
          StaleFacts();
        }
        if !crashed && latestSendedMsgid > TRUNCATE_SIZE {
          ghost var ms := records + late;
          crashed := SendAndTruncate(late, second, dies);
          assert old(Saved()) + saved + late == old(Saved()) + (saved + late);
          assert old(records) + saved + late == old(records) + (saved + late);
          saved := saved + late;
          to := if records == ms then sent else |ms|;
          CameIs(saved, arrivals, late, n);
          assert valid ==> Large(ms, mid) && AllDeliver(ms, from, mid - from, first);
          assert valid ==> AllDeliver(ms, mid, to - mid, second);
          assert valid && to < |ms| ==> Stops(ms, mid, to, second, crashed);
          assert valid && to == |ms| ==> crashed == dies;
        } else {
          assert valid ==> AllDeliver(records, from, mid - from, first) && AllDeliver(records, mid, to - mid, second);
          assert valid && to < |records| ==> Stops(records, from, mid, first, crashed);
          assert valid && !(crashed && to == mid && to < |records|) ==> !Large(records, mid);
          assert valid ==> Flushed(records, from, mid, to, first, second, crashed, dies);
        }
        assert valid ==> Flushed(old(records) + saved, from, mid, to, first, second, crashed, dies);
      }
    }
  }

  /** The messages saved meanwhile: the arrivals up to some read, and perhaps the late ones. */
  ghost predicate Came(saved: seq<Message>, arrivals: seq<seq<Message>>, late: seq<Message>) {
    var all := Joined(arrivals);
    exists n: nat :: n <= |all| && (saved == all[..n] || saved == all[..n] + late)
  }

  lemma CameIs(saved: seq<Message>, arrivals: seq<seq<Message>>, late: seq<Message>, n: nat)
    requires n <= |Joined(arrivals)|
    requires saved == Joined(arrivals)[..n] || saved == Joined(arrivals)[..n] + late
    ensures Came(saved, arrivals, late)
  {
  }

  /** A message that delivery never gets past. */
  predicate Unread(m: Message) { Pending(m) && Decoded(m).None? }

  /** A record that cannot be read lies behind the cursor, which has never passed one. */
  lemma UnreadIs(records: seq<Message>, sent: nat, hidden: nat, k: nat, past: seq<Message>, delivered: seq<nat>,
                 copies: seq<multiset<Int64>>)
    requires hidden <= sent <= |records| && (hidden > 0 ==> Readable(records[hidden - 1]))
    requires Progress(past + records[hidden..], |past| + sent - hidden, delivered, copies)
    requires (k == sent || k + 1 == sent) && k < |records| && Pending(records[k]) && Reading(records[k]) == None
    ensures k == sent && Unread(records[k])
  {
    hide Pending, InSaveOrder, Reached, Decoded;
    PassedRead(records, sent, hidden, past, delivered, copies);
  }

  lemma PanicsUnread(m: Message)
    requires Panics(m)
    ensures Reading(m) == None
  {
  }

  lemma PassedRead(records: seq<Message>, sent: nat, hidden: nat, past: seq<Message>, delivered: seq<nat>,
                   copies: seq<multiset<Int64>>)
    requires hidden <= sent <= |records|
    requires Progress(past + records[hidden..], |past| + sent - hidden, delivered, copies)
    ensures forall j :: hidden <= j < sent ==> Readable(records[j])
  {
    hide Pending, InSaveOrder, Reached, Decoded;
    forall j | hidden <= j < sent ensures Readable(records[j]) {
      var p := |past| + j - hidden;
      assert (past + records[hidden..])[p] == records[j] && Copied(records[j], copies[p]);
    }
  }

  lemma StartStays(ms: seq<Message>, more: seq<Message>, k: nat)
    requires k <= |ms|
    ensures Start(ms + more, k) == Start(ms, k)
  {
    assert (ms + more)[..k] == ms[..k];
  }

  lemma NothingJoined(parts: seq<seq<Message>>)
    ensures Joined(parts[..0]) == [] && Joined([]) == []
  {
  }

  /** The cursor stands on the last message exactly when everything is sent. */
  lemma LatestIsLast(records: seq<Message>, sent: nat, file: seq<Byte>, latest: int)
    requires FileState(file, records, latest) && sent <= |records|
    ensures latest == CursorAt(records, sent) <==> sent == |records|
    ensures latest > CursorAt(records, sent) <==> sent < |records|
  {
    hide Start;
    if sent < |records| {
      if sent > 0 { StartsGrow(records, sent - 1, |records| - 1); } else { StartsGrow(records, 0, |records| - 1); }
    }
  }

  // ---------- an old cursor in a new file ----------

  /** Where an old cursor that is not past the last message stands: on a record or inside one. */
  lemma {:induction false} CursorStands(ms: seq<Message>, cursor: int) returns (k: nat)
    requires ms != [] && HEADER_SIZE <= cursor <= Start(ms, |ms| - 1)
    ensures k < |ms| && Start(ms, k) <= cursor < Start(ms, k) + |JournalRec(ms[k])|
    decreases |ms|
  {
    hide JournalRec, Start;
    var n := |ms| - 1;
    var rest := JournalSplit(ms, n);
    if cursor == Start(ms, n) {
      k := n;
    } else {
      BeforeFirst(ms);
      var back := JournalSplit(ms, n - 1);
      if cursor >= Start(ms, n - 1) {
        k := n - 1;
      } else {
        StartsOf(ms, n);
        k := CursorStands(ms[..n], cursor);
      }
    }
  }

  lemma BeforeFirst(ms: seq<Message>)
    ensures Start(ms, 0) == HEADER_SIZE
  {
    NoBytes();
    assert ms[..0] == [];
  }

  lemma StartsOf(ms: seq<Message>, n: nat)
    requires n <= |ms|
    ensures forall k :: 0 <= k <= n ==> Start(ms[..n], k) == Start(ms, k)
  {
    forall k | 0 <= k <= n ensures Start(ms[..n], k) == Start(ms, k) { assert ms[..n][..k] == ms[..k]; }
  }

  /** Anything but the magic number at the cursor blocks it. */
  lemma NoMagicBlocks(file: seq<Byte>, at: int)
    requires 0 <= at && at + 4 <= |file| && Get32(file[at..at + 4]) != MAGIC
    ensures Blocked(file, at)
  {
    hide Get32;
    forall rest ensures ReadJournal(file[at..] + rest) == None {
      assert (file[at..] + rest)[..4] == file[at..at + 4];
    }
  }

  /** So does a record that cannot be read. */
  lemma UnreadBlocks(ms: seq<Message>, k: nat)
    requires k < |ms| && Unread(ms[k])
    ensures Blocked(FileOf(ms), Start(ms, k))
  {
    hide JournalRec, ReadJournal, Pending, Decoded, FileHeader;
    var rest := JournalSplit(ms, k);
    assert FileOf(ms) == FileHeader() + JournalRecs(ms[..k]) + (JournalRec(ms[k]) + rest);
    hide JournalRecs;
    var file, at := FileOf(ms), Start(ms, k);
    assert file[at..] == JournalRec(ms[k]) + rest;
    forall more ensures ReadJournal(file[at..] + more) == None {
      assert file[at..] + more == JournalRec(ms[k]) + (rest + more);
      ReadJournalRec(ms[k], rest + more);
    }
  }

  /** What an old cursor that is not past the last message does: on a readable record it hides what comes up to that
      record (`Hide`); otherwise nothing can be read there, now or later, unless it stands, inside a record, on bytes
      that look like the magic number. */
  lemma OldCursor(ms: seq<Message>, cursor: int) returns (k: nat)
    requires (forall m :: m in ms ==> Pending(m)) && ms != [] && HEADER_SIZE <= cursor <= Start(ms, |ms| - 1)
    ensures k < |ms| && Start(ms, k) <= cursor < Start(ms, k) + |JournalRec(ms[k])| && cursor + 28 <= |FileOf(ms)|
    ensures cursor == Start(ms, k) && !Readable(ms[k]) ==> Blocked(FileOf(ms), cursor)
    ensures cursor > Start(ms, k) && Get32(FileOf(ms)[cursor..cursor + 4]) != MAGIC ==> Blocked(FileOf(ms), cursor)
  {
    hide JournalRec, Start, FileOf, Pending, Decoded, Blocked, Get32;
    k := CursorStands(ms, cursor);
    LastStarts(ms);
    assert ms[k] in ms;
    if cursor == Start(ms, k) {
      if !Readable(ms[k]) { UnreadBlocks(ms, k); }
    } else if Get32(FileOf(ms)[cursor..cursor + 4]) != MAGIC {
      NoMagicBlocks(FileOf(ms), cursor);
    }
  }

  lemma LastStarts(ms: seq<Message>)
    requires ms != []
    ensures Start(ms, |ms| - 1) + 28 <= |FileOf(ms)|
  {
    hide JournalRec;
    var rest := JournalSplit(ms, |ms| - 1);
  }

  /** Behind any messages, one to one member with 1000 zero bytes of content: a cursor 100 bytes into its record is
      not past the last message, and blocked. */
  lemma InsideRecord(front: seq<Message>)
    ensures var ms, at := front + [ToMany(1, Zeros(1000)), ToMany(1, [])], Start(front, |front|) + 100;
      at < Start(ms, |ms| - 1) && Blocked(FileOf(ms), at)
  {
    hide FileHeader, Get32, Blocked, JournalRec, JournalRecs, ToMany, Start, FileOf;
    var m := ToMany(1, Zeros(1000));
    var ms := front + [m, ToMany(1, [])];
    var n := |front|;
    LongRecord();
    assert ms[n] == m && |ms| - 1 == n + 1;
    StartStays(front, [m, ToMany(1, [])], n);
    InRecord(ms, n, 100);
    NoMagicBlocks(FileOf(ms), Start(ms, n) + 100);
  }

  /** Four bytes of a record, where they stand in the file. */
  lemma InRecord(ms: seq<Message>, k: nat, a: nat)
    requires k < |ms| && a + 4 <= |JournalRec(ms[k])|
    ensures var at := Start(ms, k) + a;
      at + 4 <= |FileOf(ms)| && FileOf(ms)[at..at + 4] == JournalRec(ms[k])[a..a + 4]
    ensures Start(ms, k + 1) == Start(ms, k) + |JournalRec(ms[k])|
  {
    hide FileHeader, JournalRec, JournalRecs;
    var rest := JournalSplit(ms, k);
    SizeOfRecord(ms, k);
    var front := FileHeader() + JournalRecs(ms[..k]);
    assert FileOf(ms) == front + JournalRec(ms[k]) + rest;
  }

  lemma LongRecord()
    ensures var rec := JournalRec(ToMany(1, Zeros(1000)));
      |rec| > 104 && Get32(rec[100..104]) != MAGIC
  {
    hide Put32, Put16, Put64s;
    var m := ToMany(1, Zeros(1000));
    PendingTail(m.body, 0);
    var rec, body := JournalRec(m), Encode(m.body, 0);
    assert rec[20..20 + |body|] == body && body[46..] == Zeros(1000);
    assert rec[100..104] == body[80..84] == body[46..][34..38] == Zeros(4);
    NoMagicInZeros();
  }

  lemma NoMagicInZeros()
    ensures Get32(Zeros(4)) != MAGIC
  {
    assert Zeros(4) == [0, 0, 0, 0];
    assert [0, 0, 0, 0] == Put32(0) by { PutZero(); }
    GetPut32(0);
  }

  lemma PutZero() ensures Put32(0) == [0, 0, 0, 0] {}

  /** The same messages saved again: the old cursor stands on the last of them and hides exactly these. */
  lemma SavedAgain(ms: seq<Message>, more: seq<Message>)
    requires ms != []
    ensures CursorAt(ms, |ms|) == Start(ms + more, |ms| - 1) && (ms + more)[|ms| - 1] == ms[|ms| - 1]
  {
    hide JournalRecs;
    StartStays(ms, more, |ms| - 1);
  }

  lemma HeaderStays(ms: seq<Message>)
    ensures |FileOf(ms)| >= HEADER_SIZE && FileOf(ms)[..HEADER_SIZE] == FileOf([])
  {
    hide FileHeader;
  }

  /** The record reading resumes at: the one under the cursor, or the first. */
  lemma Resume(ms: seq<Message>, sent: nat) returns (k: nat)
    requires sent <= |ms|
    ensures k == (if sent == 0 then 0 else sent - 1) <= |ms|
    ensures Start(ms, k) == if CursorAt(ms, sent) == 0 then HEADER_SIZE else CursorAt(ms, sent)
  {
    hide JournalRecs;
    k := if sent == 0 then 0 else sent - 1;
    assert ms[..0] == [];
    StartsGrow(ms, 0, k);
    NoBytes();
  }

  lemma NoBytes() ensures JournalRecs([]) == [] {}

  /** ReadAtStart for the file of a journal. */
  lemma ReadJournalFile(ms: seq<Message>, k: nat, file: seq<Byte>, latest: int)
    requires FileState(file, ms, latest) && k <= |ms|
    ensures Start(ms, k) <= |file|
    ensures k == |ms| ==> ReadJournal(file[Start(ms, k)..]) == None
    ensures k < |ms| ==> Pending(ms[k]) && ReadJournal(file[Start(ms, k)..]) == Reading(ms[k])
    ensures ReadPanics(file[Start(ms, k)..]) <==> k < |ms| && Panics(ms[k])
    ensures k < |ms| ==> Start(ms, k + 1) == Start(ms, k) + |JournalRec(ms[k])|
  {
    hide Pending, Decoded, JournalRec, ReadJournal, FileOf, Start, Reading, ReadPanics, Panics;
    ReadAtStart(ms, k);
    if k < |ms| { assert ms[k] in ms; }
  }

  lemma SizeOfRecord(ms: seq<Message>, k: nat)
    requires k < |ms|
    ensures Start(ms, k + 1) == Start(ms, k) + |JournalRec(ms[k])|
  {
    hide JournalRec, JournalRecs;
    var rest := JournalSplit(ms, k);
  }

  lemma CursorPositive(ms: seq<Message>, sent: nat)
    requires sent <= |ms|
    ensures CursorAt(ms, sent) > 0 <==> sent > 0
  {
  }

  lemma CursorNext(ms: seq<Message>, sent: nat)
    requires sent < |ms|
    ensures CursorAt(ms, sent + 1) == Start(ms, sent)
  {
  }

  /** A record is at or below the cursor exactly when the cursor has passed it. */
  lemma SentExactly(ms: seq<Message>, sent: nat, k: nat)
    requires k < |ms| && sent <= |ms|
    ensures Start(ms, k) <= CursorAt(ms, sent) <==> k < sent
  {
    hide Start;
    StartsGrow(ms, 0, k);
    if k < sent { StartsGrow(ms, k, sent - 1); } else if sent > 0 { StartsGrow(ms, sent - 1, k); }
  }

  lemma AppendStarts(ms: seq<Message>, m: Message)
    ensures FileOf(ms + [m]) == FileOf(ms) + JournalRec(m)
    ensures |FileOf(ms)| == Start(ms + [m], |ms|)
    ensures forall k :: 0 <= k <= |ms| ==> Start(ms + [m], k) == Start(ms, k)
  {
    hide JournalRec, FileHeader;
    var all := ms + [m];
    assert all[..|ms|] == ms;
    forall k | 0 <= k <= |ms| ensures Start(all, k) == Start(ms, k) { assert all[..k] == ms[..k]; }
  }

  /** The end of the file tells the last record's length. */
  lemma LastRecord(ms: seq<Message>)
    requires forall m :: m in ms ==> Pending(m)
    ensures ms == [] ==> |FileOf(ms)| == HEADER_SIZE
    ensures ms != [] ==>
      var file, n := FileOf(ms), |ms| - 1; var offset := |file| - 8;
      && offset > HEADER_SIZE && Get32(file[offset + 4..offset + 8]) == MAGIC
      && offset - Get32(file[offset..offset + 4]) - 8 == Start(ms, n)
  {
    hide PutUint, GetUint, Put32, Get32, Frame, Encode, Fits, FileHeader;
    if ms != [] {
      var n := |ms| - 1;
      var m, file := ms[n], FileOf(ms);
      var rec, offset := JournalRec(m), |file| - 8;
      assert file == FileHeader() + JournalRecs(ms[..n]) + rec;
      assert file[offset..offset + 4] == rec[|rec| - 8..|rec| - 4] == Put32(|Frame(m)|);
      assert file[offset + 4..offset + 8] == rec[|rec| - 4..] == Put32(MAGIC);
      GetPut32(|Frame(m)|);
      GetPut32(MAGIC);
      assert m in ms;
    }
  }
}
