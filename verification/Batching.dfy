/** The master's batching of saved messages, as in ims/storage_sync.go, and what becomes of its batches on a
    slave that is following live. */
module Batching {
  import opened Bytes
  import opened Protocol
  import opened StorageFiles
  import opened Queues
  import opened Replication

  const BATCH_LIMIT := 1000

  function Joined(batches: seq<seq<Entry>>): (r: seq<Entry>) {
    if batches == [] then [] else batches[0] + Joined(batches[1..])
  }

  function Messages(es: seq<Entry>): (ms: seq<Message>)
    ensures |ms| == |es|
  {
    seq(|es|, i requires 0 <= i < |es| => es[i].msg)
  }

  /** What a batch message carries. */
  datatype Batched = Batched(firstId: int, lastId: int, msgs: seq<Message>)

  function BatchOf(es: seq<Entry>): (r: Batched)
    requires es != []
  {
    Batched(es[0].id, es[|es| - 1].id, Messages(es))
  }

  /** The batch messages carry the stretches, each of 1 to 1000 messages. */
  predicate Carry(sent: seq<Batched>, batches: seq<seq<Entry>>) {
    && |sent| == |batches|
    && forall i :: 0 <= i < |sent| ==> 0 < |batches[i]| <= BATCH_LIMIT && sent[i] == BatchOf(batches[i])
  }

  /** One turn of the master's loop: whether the second since the first cached message is over, and the
      message received, or None when the wait timed out. */
  datatype Turn = Turn(due: bool, got: Option<Entry>)

  function Incoming(turns: seq<Turn>): (r: seq<Entry>) {
    if turns == [] then [] else
    var last := turns[|turns| - 1];
    Incoming(turns[..|turns| - 1]) + (if last.got.Some? then [last.got.value] else [])
  }

  /** One batch message more, with the ids of the first and last entry and all messages in order. */
  predicate OneMore(was: seq<Batched>, sent: seq<Batched>, es: seq<Entry>)
    requires es != []
  {
    && |sent| == |was| + 1 && sent[..|was|] == was
    && var last := sent[|was|];
       && last.firstId == es[0].id && last.lastId == es[|es| - 1].id && |last.msgs| == |es|
       && forall k :: 0 <= k < |es| ==> last.msgs[k] == es[k].msg
  }

  class Master {
    var cache: seq<Entry>
    /** What the clients' channels were given. */
    var sent: seq<Batched>
    ghost var batches: seq<seq<Entry>>

    ghost predicate Valid()
      reads this
    {
      |cache| < BATCH_LIMIT && Carry(sent, batches)
    }

    /** All that was received, batched or not. */
    ghost function Stream(): (r: seq<Entry>)
      reads this
    {
      Joined(batches) + cache
    }

    constructor ()
      ensures Valid() && Stream() == []
    {
      cache, sent, batches := [], [], [];
    }

    /** `SendBatch`, after which its caller empties the cache. */
    method SendBatch(es: seq<Entry>)
      requires Carry(sent, batches) && |es| <= BATCH_LIMIT
      modifies `sent, `batches
      ensures Carry(sent, batches)
      ensures batches == old(batches) + if es == [] then [] else [es]
      ensures if es == [] then sent == old(sent) else OneMore(old(sent), sent, es)
    {
      if |es| == 0 {
        return;
      }
      var lastId, msgs := 0, [];
      for k := 0 to |es|
        invariant msgs == Messages(es[..k]) && (k > 0 ==> lastId == es[k - 1].id)
      {
        lastId := es[k].id;
        msgs := msgs + [es[k].msg];
      }
      assert es[..|es|] == es;
      sent := sent + [Batched(es[0].id, lastId, msgs)];
      batches := batches + [es];
    }

    /** `Run`: in whatever way messages and timeouts come, nothing is lost, repeated or reordered, and every
        batch holds 1 to 1000 messages. After a timeout all that has come is sent, and when the second is over all
        that came before; a batch that is not full is sent at no other time. */
    method Run(turns: seq<Turn>)
      requires Valid()
      modifies this
      ensures Valid() && Stream() == old(Stream()) + Incoming(turns)
      ensures old(batches) <= batches
      ensures OnTime(old(Stream()), turns, |turns|, batches)
      ensures InTurn(old(Stream()), turns, |turns|, |old(batches)|, batches)
      ensures turns != [] && turns[|turns| - 1].got.None? ==> cache == []
      ensures turns != [] && turns[|turns| - 1].due && turns[|turns| - 1].got.Some? ==>
        cache == [turns[|turns| - 1].got.value]
    {
      hide Carry, Joined, Incoming, OnTime, InTurn, OneMore;
      NoneIncoming(turns, Stream());
      NoTurns(Stream(), turns, batches);
      for k := 0 to |turns|
        invariant Valid() && Stream() == old(Stream()) + Incoming(turns[..k]) && old(batches) <= batches
        invariant OnTime(old(Stream()), turns, k, batches)
        invariant InTurn(old(Stream()), turns, k, |old(batches)|, batches)
        invariant k > 0 && turns[k - 1].got.None? ==> cache == []
        invariant k > 0 && turns[k - 1].due && turns[k - 1].got.Some? ==> cache == [turns[k - 1].got.value]
      {
        ghost var was, before := batches, cache;
        IncomingOne(turns, k);
        if |cache| > 0 && turns[k].due {
          JoinedAppend(batches, cache);
          SendBatch(cache);
          cache := [];
        }
        if turns[k].got.Some? {
          var emsg := turns[k].got.value;
          assert Joined(batches) + cache + [emsg] == Joined(batches) + (cache + [emsg]);
          cache := cache + [emsg];
          if |cache| >= BATCH_LIMIT {
            JoinedAppend(batches, cache);
            SendBatch(cache);
            cache := [];
          }
        } else if |cache| > 0 {
          JoinedAppend(batches, cache);
          SendBatch(cache);
          cache := [];
        }
        TurnOnTime(old(Stream()), turns, k, was, batches, cache);
        TurnInTurn(old(Stream()), turns, k, |old(batches)|, was, before, batches);
      }
      assert turns[..|turns|] == turns;
    }
  }

  /** Whenever one of the first n turns ends with a timeout, the batches alone are all that has come; and when the
      second is over, all that came before. */
  ghost predicate OnTime(before: seq<Entry>, turns: seq<Turn>, n: nat, batches: seq<seq<Entry>>)
    requires n <= |turns|
  {
    forall k :: 0 <= k < n ==>
      && (turns[k].got.None? ==> AllSent(batches, before + Incoming(turns[..k + 1])))
      && (turns[k].due ==> AllSent(batches, before + Incoming(turns[..k])))
  }

  /** The first so many batches are the messages of this stream. */
  ghost predicate AllSent(batches: seq<seq<Entry>>, stream: seq<Entry>) {
    exists j :: 0 <= j <= |batches| && Joined(batches[..j]) == stream
  }

  /** A batch of fewer than 1000 messages ends where one of the first n turns says so. */
  ghost predicate InTurn(before: seq<Entry>, turns: seq<Turn>, n: nat, from: nat, batches: seq<seq<Entry>>)
    requires n <= |turns|
  {
    forall i :: from <= i < |batches| && |batches[i]| < 1000 ==> EndsInTurn(before, turns, n, Joined(batches[..i + 1]))
  }

  ghost predicate EndsInTurn(before: seq<Entry>, turns: seq<Turn>, n: nat, stream: seq<Entry>)
    requires n <= |turns|
  {
    exists k :: 0 <= k < n
      && if turns[k].due then stream == before + Incoming(turns[..k])
         else turns[k].got.None? && stream == before + Incoming(turns[..k + 1])
  }

  lemma NoTurns(before: seq<Entry>, turns: seq<Turn>, batches: seq<seq<Entry>>)
    ensures OnTime(before, turns, 0, batches) && InTurn(before, turns, 0, |batches|, batches)
  {
  }

  lemma TurnOnTime(before: seq<Entry>, turns: seq<Turn>, k: nat, was: seq<seq<Entry>>, batches: seq<seq<Entry>>,
                   cache: seq<Entry>)
    requires k < |turns| && OnTime(before, turns, k, was) && was <= batches
    requires Joined(batches) + cache == before + Incoming(turns[..k + 1])
    requires turns[k].got.None? ==> cache == []
    requires turns[k].due && turns[k].got.Some? ==> cache == [turns[k].got.value]
    ensures OnTime(before, turns, k + 1, batches)
  {
    hide Joined, Incoming;
    assert batches[..|batches|] == batches;
    IncomingOne(turns, k);
    var stream := before + Incoming(turns[..k]);
    if turns[k].got.None? {
      assert stream + [] == stream && Joined(batches) + [] == Joined(batches);
    } else if turns[k].due {
      assert Joined(batches) == (Joined(batches) + cache)[..|Joined(batches)|];
      assert before + Incoming(turns[..k + 1]) == stream + cache;
      assert stream == (stream + cache)[..|stream|];
    }
    forall s | AllSent(was, s) ensures AllSent(batches, s) {
      var j :| 0 <= j <= |was| && Joined(was[..j]) == s;
      assert batches[..j] == was[..j];
    }
  }

  lemma TurnInTurn(before: seq<Entry>, turns: seq<Turn>, k: nat, from: nat, was: seq<seq<Entry>>, cache: seq<Entry>,
                   batches: seq<seq<Entry>>)
    requires k < |turns| && InTurn(before, turns, k, from, was) && was <= batches
    requires Joined(was) + cache == before + Incoming(turns[..k])
    requires |batches| <= |was| + 1
    requires batches != was && |batches[|was|]| < 1000 ==>
      (turns[k].due || turns[k].got.None?) && batches[|was|] == cache
    ensures InTurn(before, turns, k + 1, from, batches)
  {
    hide Joined, Incoming, EndsInTurn;
    forall i | from <= i < |batches| && |batches[i]| < 1000
      ensures EndsInTurn(before, turns, k + 1, Joined(batches[..i + 1]))
    {
      EndsLater(before, turns, k, Joined(batches[..i + 1]));
      if i < |was| {
        assert batches[..i + 1] == was[..i + 1];
      } else {
        LastJoined(was, batches);
      }
    }
  }

  lemma LastJoined(was: seq<seq<Entry>>, batches: seq<seq<Entry>>)
    requires was <= batches && |batches| == |was| + 1
    ensures Joined(batches[..|was| + 1]) == Joined(was) + batches[|was|]
  {
    hide Joined;
    assert batches[..|was| + 1] == was + [batches[|was|]];
    JoinedAppend(was, batches[|was|]);
  }

  lemma EndsLater(before: seq<Entry>, turns: seq<Turn>, k: nat, stream: seq<Entry>)
    requires k < |turns|
    ensures EndsInTurn(before, turns, k, stream) ==> EndsInTurn(before, turns, k + 1, stream)
    ensures (turns[k].due || turns[k].got.None?) && stream == before + Incoming(turns[..k]) ==>
      EndsInTurn(before, turns, k + 1, stream)
  {
    hide Incoming;
    IncomingOne(turns, k);
    assert Incoming(turns[..k]) + [] == Incoming(turns[..k]);
  }

  lemma NoneIncoming(turns: seq<Turn>, s: seq<Entry>) ensures s + Incoming(turns[..0]) == s {}

  lemma IncomingOne(turns: seq<Turn>, k: nat)
    requires k < |turns|
    ensures Incoming(turns[..k + 1]) == Incoming(turns[..k]) + if turns[k].got.Some? then [turns[k].got.value] else []
  {
    assert turns[..k + 1][..k] == turns[..k];
  }

  lemma {:induction false} JoinedAppend(batches: seq<seq<Entry>>, es: seq<Entry>)
    ensures Joined(batches + [es]) == Joined(batches) + es == Joined(batches + [es]) + []
  {
    if batches == [] {
      assert [] + [es] == [es] && [es][1..] == [];
    } else {
      var all := batches + [es];
      assert all[0] == batches[0] && all[1..] == batches[1..] + [es];
      JoinedAppend(batches[1..], es);
    }
  }

  // ---------- entries one by one ----------

  /** A replica that is given each message under its own id. */
  function SyncStream(r: Replica, es: seq<Entry>): (next: Replica)
    requires |r.files| > 0
    ensures |next.files| >= |r.files|
    decreases es
  {
    if es == [] then r else SyncStream(SyncEntry(r, es[0]), es[1..])
  }

  function LogTo(blocks: seq<seq<Message>>, p: Place): (r: seq<Entry>)
    requires p.b < |blocks| && p.j <= |blocks[p.b]|
  {
    LogOf(Cut(blocks, p.b, p.j))
  }

  function ImageAt(blocks: seq<seq<Message>>, p: Place): (r: Replica)
    requires p.b < |blocks| && p.j <= |blocks[p.b]|
    ensures |r.files| == p.b + 1
  {
    Image(blocks, p.b, p.j)
  }

  lemma LogToPrefix(blocks: seq<seq<Message>>, p: Place)
    requires p.b < |blocks| && p.j <= |blocks[p.b]|
    ensures LogTo(blocks, p) <= LogOf(blocks)
    ensures p.b == |blocks| - 1 && p.j == |blocks[p.b]| ==> LogTo(blocks, p) == LogOf(blocks)
  {
    hide LogOf;
    CutPrefix(blocks, p.b, p.j);
    if p.b == |blocks| - 1 && p.j == |blocks[p.b]| {
      assert blocks[p.b][..p.j] == blocks[p.b];
      assert Cut(blocks, p.b, p.j) == blocks;
    }
  }

  /** The place behind the message that follows p. */
  function Next(blocks: seq<seq<Message>>, p: Place): (r: Place)
    requires p.b < |blocks|
  {
    if p.j < |blocks[p.b]| then Place(p.b, p.j + 1) else Place(p.b + 1, 1)
  }

  /** An entry that follows in the log is the next message, and brings the replica to the next place. */
  lemma NextEntry(blocks: seq<seq<Message>>, p: Place, e: Entry)
    requires BlocksOk(blocks) && IsPlace(blocks, p) && LogTo(blocks, p) + [e] <= LogOf(blocks)
    ensures var q := Next(blocks, p);
      && IsPlace(blocks, q) && LogTo(blocks, q) == LogTo(blocks, p) + [e]
      && SyncEntry(ImageAt(blocks, p), e) == ImageAt(blocks, q)
      && IdAt(blocks, q.b, q.j) == e.id + |Rec(e.msg)| && GetBlockNO(e.id) == q.b
      && (if q.b == p.b then e.id == IdAt(blocks, p.b, p.j) else e.id >= IdAt(blocks, p.b, p.j) + HEADER_SIZE)
  {
    hide Rec, Recs, LogOf, Image, SyncEntry, BlockOk;
    var q, log := Next(blocks, p), LogTo(blocks, p);
    LogToPrefix(blocks, p);
    if p.j < |blocks[p.b]| {
      NextInBlock(blocks, p.b, p.j);
      SyncNext(blocks, p.b, p.j);
      NextIdAt(blocks, p.b, p.j);
      IdInBlock(blocks, p.b, p.j);
    } else {
      assert p.b + 1 < |blocks|;
      FirstOfBlock(blocks, p.b);
      SyncNextBlockIff(blocks, p.b, GetMsgId(p.b + 1, HEADER_SIZE));
      FirstId(blocks, p.b + 1);
      NextIdAt(blocks, p.b + 1, 0);
      IdInBlock(blocks, p.b + 1, 0);
      EndOfBlock(blocks, p.b);
    }
    LogToPrefix(blocks, q);
    assert LogTo(blocks, q)[|log|] == (log + [e])[|log|];
  }

  lemma FirstId(blocks: seq<seq<Message>>, b: nat)
    requires b < |blocks|
    ensures IdAt(blocks, b, 0) == GetMsgId(b, HEADER_SIZE)
  {
    assert blocks[b][..0] == [];
  }

  lemma IdInBlock(blocks: seq<seq<Message>>, b: nat, j: nat)
    requires BlocksOk(blocks) && b < |blocks| && j < |blocks[b]|
    ensures GetBlockNO(IdAt(blocks, b, j)) == b
  {
    hide Rec, Recs, EntriesFrom, Storable;
    EntryInBlock(blocks, b, j);
    EntryAt(GetMsgId(b, HEADER_SIZE), blocks[b], j);
  }

  lemma EndOfBlock(blocks: seq<seq<Message>>, b: nat)
    requires BlocksOk(blocks) && b < |blocks|
    ensures IdAt(blocks, b, |blocks[b]|) + HEADER_SIZE <= GetMsgId(b + 1, HEADER_SIZE)
  {
    hide Recs, Storable;
    assert blocks[b][..|blocks[b]|] == blocks[b] && BlockOk(blocks[b]);
  }

  /** The place a stretch of the log leads to. */
  function Follow(blocks: seq<seq<Message>>, p: Place, n: nat): (r: Place)
    decreases n
  {
    if n == 0 || p.b >= |blocks| then p else Follow(blocks, Next(blocks, p), n - 1)
  }

  /** Where the k-th entry of a stretch behind p leaves a replica, one by one. */
  lemma {:induction false} StreamFollows(blocks: seq<seq<Message>>, p: Place, es: seq<Entry>)
    requires BlocksOk(blocks) && IsPlace(blocks, p) && LogTo(blocks, p) + es <= LogOf(blocks)
    ensures var q := Follow(blocks, p, |es|);
      && IsPlace(blocks, q) && LogTo(blocks, q) == LogTo(blocks, p) + es
      && SyncStream(ImageAt(blocks, p), es) == ImageAt(blocks, q)
    decreases es
  {
    hide LogTo, ImageAt, SyncEntry, IdAt, Rec, BlocksOk;
    if es == [] {
      assert LogTo(blocks, p) + [] == LogTo(blocks, p);
    } else {
      assert LogTo(blocks, p) + es == LogTo(blocks, p) + [es[0]] + es[1..];
      NextEntry(blocks, p, es[0]);
      StreamFollows(blocks, Next(blocks, p), es[1..]);
    }
  }

  // ---------- batches ----------

  predicate OneBlock(es: seq<Entry>) {
    forall i :: 0 <= i < |es| ==> GetBlockNO(es[i].id) == GetBlockNO(es[0].id)
  }

  /** Each message follows right behind the one before. */
  predicate Adjoining(es: seq<Entry>) {
    forall i :: 0 < i < |es| ==> es[i].id == es[i - 1].id + |Rec(es[i - 1].msg)|
  }

  /** Counting up from the first id finds every message of a stretch of the log exactly when it lies in one
      block; otherwise the count falls behind by a header at least. */
  lemma {:induction false} CountIds(blocks: seq<seq<Message>>, p: Place, es: seq<Entry>)
    requires BlocksOk(blocks) && IsPlace(blocks, p) && LogTo(blocks, p) + es <= LogOf(blocks) && es != []
    ensures var q := Follow(blocks, p, |es|); var first := Next(blocks, p);
      && IsPlace(blocks, q) && GetBlockNO(es[0].id) == first.b <= q.b
      && (if first.b == q.b
          then OneBlock(es) && Adjoining(es) && IdAt(blocks, q.b, q.j) == es[0].id + |Recs(Messages(es))|
          else !OneBlock(es) && IdAt(blocks, q.b, q.j) >= es[0].id + |Recs(Messages(es))| + HEADER_SIZE)
    decreases es
  {
    hide LogTo, ImageAt, SyncEntry, IdAt, Rec, BlocksOk, Recs, GetBlockNO, OneBlock, Adjoining;
    var rest, p1 := es[1..], Next(blocks, p);
    assert LogTo(blocks, p) + es == LogTo(blocks, p) + [es[0]] + rest;
    NextEntry(blocks, p, es[0]);
    assert Messages(es) == [es[0].msg] + Messages(rest);
    RecsFirst(es[0].msg, Messages(rest));
    assert Follow(blocks, p, |es|) == Follow(blocks, p1, |rest|);
    if rest == [] {
      OneEntry(es);
    } else {
      CountIds(blocks, p1, rest);
      NextEntry(blocks, p1, rest[0]);
      JoinEntry(es);
    }
  }

  lemma RecsFirst(m: Message, ms: seq<Message>)
    ensures Recs([m] + ms) == Rec(m) + Recs(ms) && Recs([]) == []
  {
    hide Rec;
    assert ([m] + ms)[1..] == ms;
  }

  lemma OneEntry(es: seq<Entry>)
    requires |es| == 1
    ensures OneBlock(es) && Adjoining(es) && Messages(es[1..]) == []
  {
  }

  lemma JoinEntry(es: seq<Entry>)
    requires |es| > 1
    ensures OneBlock(es) <==> OneBlock(es[1..]) && GetBlockNO(es[0].id) == GetBlockNO(es[1].id)
    ensures Adjoining(es) <==> Adjoining(es[1..]) && es[1].id == es[0].id + |Rec(es[0].msg)|
  {
    hide Rec, GetBlockNO;
    var rest := es[1..];
    if OneBlock(es) {
      forall i | 0 <= i < |rest| ensures GetBlockNO(rest[i].id) == GetBlockNO(rest[0].id) {
        assert rest[i] == es[i + 1];
      }
    }
    if OneBlock(rest) && GetBlockNO(es[0].id) == GetBlockNO(es[1].id) {
      forall i | 0 <= i < |es| ensures GetBlockNO(es[i].id) == GetBlockNO(es[0].id) {
        if i > 0 { assert rest[i - 1] == es[i]; }
      }
    }
    if Adjoining(es) {
      forall i | 0 < i < |rest| ensures rest[i].id == rest[i - 1].id + |Rec(rest[i - 1].msg)| {
        assert rest[i] == es[i + 1] && rest[i - 1] == es[i];
      }
    }
    if Adjoining(rest) && es[1].id == es[0].id + |Rec(es[0].msg)| {
      forall i | 0 < i < |es| ensures es[i].id == es[i - 1].id + |Rec(es[i - 1].msg)| {
        if i > 1 { assert rest[i - 1] == es[i] && rest[i - 2] == es[i - 1]; }
      }
    }
  }

  /** Adjoining messages sent as a batch arrive as if each had come with its id. */
  lemma {:induction false} BatchIsStream(r: Replica, es: seq<Entry>)
    requires |r.files| > 0 && es != [] && Adjoining(es)
    ensures SyncBatch(r, es[0].id, Messages(es)) == SyncStream(r, es)
    decreases es
  {
    hide SyncEntry, Rec, Adjoining;
    var rest := es[1..];
    assert Messages(es)[1..] == Messages(rest) && Messages(es)[0] == es[0].msg;
    assert Entry(es[0].id, es[0].msg) == es[0];
    if rest != [] {
      JoinEntry(es);
      BatchIsStream(SyncEntry(r, es[0]), rest);
    }
  }

  /** How far a replica's files reach. */
  function EndId(r: Replica): (res: int)
    requires |r.files| > 0
  {
    GetMsgId(|r.files| - 1, |r.files[|r.files| - 1]|)
  }

  /** A batch takes the files no further than its own count of ids. */
  lemma {:induction false} BatchReach(r: Replica, id: int, msgs: seq<Message>)
    requires |r.files| > 0 && 0 <= id
    ensures EndId(SyncBatch(r, id, msgs)) <= Max(EndId(r), id + |Recs(msgs)| + 12)
    decreases msgs
  {
    hide SyncEntry, EndId, Rec;
    if msgs != [] {
      var e := Entry(id, msgs[0]);
      EntryReach(r, e);
      BatchReach(SyncEntry(r, e), id + |Rec(msgs[0])|, msgs[1..]);
    }
  }

  lemma EntryReach(r: Replica, e: Entry)
    requires |r.files| > 0 && 0 <= e.id
    ensures EndId(SyncEntry(r, e)) <= Max(EndId(r), e.id + |Rec(e.msg)| + 12)
  {
    hide Exec, IsRecord, FileHeader;
    var (files, written) := SyncFiles(r.files, e);
    SplitBack(e.id);
    RecAtLeast(e.msg);
  }

  lemma RecAtLeast(m: Message)
    ensures |Rec(m)| >= 20
  {
    hide Frame;
  }

  /** A batch of the messages that follow brings the replica to the batch's end exactly when they all lie in
      one block. Over the border of a block the counted ids are wrong. */
  lemma BatchIff(blocks: seq<seq<Message>>, p: Place, es: seq<Entry>)
    requires BlocksOk(blocks) && IsPlace(blocks, p) && LogTo(blocks, p) + es <= LogOf(blocks) && es != []
    ensures var q := Follow(blocks, p, |es|);
      && IsPlace(blocks, q) && LogTo(blocks, q) == LogTo(blocks, p) + es
      && (SyncBatch(ImageAt(blocks, p), es[0].id, Messages(es)) == ImageAt(blocks, q) <==> OneBlock(es))
  {
    hide LogTo, Rec, Recs, BlocksOk, Adjoining, OneBlock, SyncBatch, SyncStream, Next, Follow, ImageAt;
    StreamFollows(blocks, p, es);
    if OneBlock(es) {
      CountIds(blocks, p, es);
      BatchIsStream(ImageAt(blocks, p), es);
    } else {
      BatchFallsShort(blocks, p, es);
    }
  }

  lemma BatchFallsShort(blocks: seq<seq<Message>>, p: Place, es: seq<Entry>)
    requires BlocksOk(blocks) && IsPlace(blocks, p) && LogTo(blocks, p) + es <= LogOf(blocks) && es != []
    requires !OneBlock(es) && IsPlace(blocks, Follow(blocks, p, |es|))
    ensures EndId(SyncBatch(ImageAt(blocks, p), es[0].id, Messages(es)))
      < EndId(ImageAt(blocks, Follow(blocks, p, |es|)))
  {
    hide LogTo, Rec, Recs, BlocksOk, OneBlock, Adjoining, SyncBatch, Next, Follow, ImageAt, IdAt, EndId, GetBlockNO;
    CountIds(blocks, p, es);
    ImageReach(blocks, p);
    ImageReach(blocks, Follow(blocks, p, |es|));
    FirstBehind(blocks, p, es);
    BatchReach(ImageAt(blocks, p), es[0].id, Messages(es));
  }

  lemma FirstBehind(blocks: seq<seq<Message>>, p: Place, es: seq<Entry>)
    requires BlocksOk(blocks) && IsPlace(blocks, p) && LogTo(blocks, p) + es <= LogOf(blocks) && es != []
    ensures es[0].id >= IdAt(blocks, p.b, p.j) && |Recs(Messages(es))| >= 20
  {
    hide LogTo, Rec, Recs, BlocksOk, ImageAt, IdAt, SyncEntry, GetBlockNO;
    assert LogTo(blocks, p) + es == LogTo(blocks, p) + [es[0]] + es[1..];
    NextEntry(blocks, p, es[0]);
    RecAtLeast(es[0].msg);
    assert Messages(es) == [es[0].msg] + Messages(es[1..]);
    RecsFirst(es[0].msg, Messages(es[1..]));
  }

  lemma ImageReach(blocks: seq<seq<Message>>, p: Place)
    requires IsPlace(blocks, p)
    ensures EndId(ImageAt(blocks, p)) == IdAt(blocks, p.b, p.j) >= 0
  {
    hide Recs, Replay, LogOf, LastRecordId;
    BytesSize(blocks[p.b][..p.j]);
  }

  /** A slave applying the batches it is sent. */
  function SyncBatches(r: Replica, batches: seq<seq<Entry>>): (res: Replica)
    requires |r.files| > 0 && forall i :: 0 <= i < |batches| ==> batches[i] != []
    decreases |batches|
  {
    if batches == [] then r
    else SyncBatches(SyncBatch(r, batches[0][0].id, Messages(batches[0])), batches[1..])
  }

  /** A slave applying batches, each within a block, has the log as far as it was batched, byte for byte, and its
      indexes. */
  lemma {:induction false} LiveReplication(blocks: seq<seq<Message>>, p: Place, batches: seq<seq<Entry>>)
    requires BlocksOk(blocks) && IsPlace(blocks, p) && LogTo(blocks, p) + Joined(batches) <= LogOf(blocks)
    requires forall i :: 0 <= i < |batches| ==> batches[i] != [] && OneBlock(batches[i])
    ensures var q := Follow(blocks, p, |Joined(batches)|);
      && IsPlace(blocks, q) && LogTo(blocks, q) == LogTo(blocks, p) + Joined(batches)
      && SyncBatches(ImageAt(blocks, p), batches) == ImageAt(blocks, q)
    decreases |batches|
  {
    hide LogTo, ImageAt, BlocksOk, OneBlock, SyncBatch;
    if batches == [] {
      assert LogTo(blocks, p) + [] == LogTo(blocks, p);
    } else {
      var es, rest := batches[0], batches[1..];
      assert LogTo(blocks, p) + Joined(batches) == LogTo(blocks, p) + es + Joined(rest);
      BatchIff(blocks, p, es);
      var p1 := Follow(blocks, p, |es|);
      LiveReplication(blocks, p1, rest);
      FollowOn(blocks, p, |es|, |Joined(rest)|);
    }
  }

  lemma {:induction false} FollowOn(blocks: seq<seq<Message>>, p: Place, m: nat, n: nat)
    ensures Follow(blocks, p, m + n) == Follow(blocks, Follow(blocks, p, m), n)
    decreases m
  {
    if m > 0 && p.b < |blocks| { FollowOn(blocks, Next(blocks, p), m - 1, n); }
  }

  lemma {:induction false} SyncBatchesOne(r: Replica, batches: seq<seq<Entry>>, es: seq<Entry>)
    requires |r.files| > 0 && es != [] && forall i :: 0 <= i < |batches| ==> batches[i] != []
    ensures |SyncBatches(r, batches).files| > 0
    ensures SyncBatches(r, batches + [es]) == SyncBatch(SyncBatches(r, batches), es[0].id, Messages(es))
    decreases |batches|
  {
    hide SyncBatch;
    var all := batches + [es];
    if batches == [] {
      assert all[0] == es && all[1..] == [];
    } else {
      assert all[0] == batches[0] && all[1..] == batches[1..] + [es];
      SyncBatchesOne(SyncBatch(r, batches[0][0].id, Messages(batches[0])), batches[1..], es);
    }
  }

  lemma SyncNextBatch(r: Replica, batches: seq<seq<Entry>>, i: nat)
    requires |r.files| > 0 && i < |batches| && forall i :: 0 <= i < |batches| ==> batches[i] != []
    ensures var before := SyncBatches(r, batches[..i]);
      && |before.files| > 0
      && SyncBatches(r, batches[..i + 1]) == SyncBatch(before, batches[i][0].id, Messages(batches[i]))
  {
    hide SyncBatch, SyncBatches, Messages;
    assert batches[..i + 1] == batches[..i] + [batches[i]];
    SyncBatchesOne(r, batches[..i], batches[i]);
  }

  /** The slave is where it should be after the first k batches. */
  ghost predicate InStep(blocks: seq<seq<Message>>, p: Place, batches: seq<seq<Entry>>, k: nat)
    requires IsPlace(blocks, p) && k <= |batches| && forall i :: 0 <= i < |batches| ==> batches[i] != []
  {
    var q := Follow(blocks, p, |Joined(batches[..k])|);
    IsPlace(blocks, q) && SyncBatches(ImageAt(blocks, p), batches[..k]) == ImageAt(blocks, q)
  }

  lemma {:induction false} JoinedPrefix(batches: seq<seq<Entry>>, k: nat)
    requires k <= |batches|
    ensures Joined(batches[..k]) <= Joined(batches)
    ensures k < |batches| ==> Joined(batches[..k + 1]) == Joined(batches[..k]) + batches[k]
    decreases |batches| - k
  {
    if k < |batches| {
      assert batches[..k + 1] == batches[..k] + [batches[k]];
      JoinedAppend(batches[..k], batches[k]);
      JoinedPrefix(batches, k + 1);
    } else {
      assert batches[..k] == batches;
    }
  }

  lemma StepNeedsOneBlock(blocks: seq<seq<Message>>, p: Place, batches: seq<seq<Entry>>, i: nat)
    requires BlocksOk(blocks) && IsPlace(blocks, p) && LogTo(blocks, p) + Joined(batches) <= LogOf(blocks)
    requires i < |batches| && forall i :: 0 <= i < |batches| ==> batches[i] != []
    requires InStep(blocks, p, batches, i) && InStep(blocks, p, batches, i + 1)
    ensures OneBlock(batches[i])
  {
    hide LogTo, LogOf, ImageAt, BlocksOk, OneBlock, SyncBatch, SyncBatches, Follow, Joined, Messages;
    NextBatch(blocks, p, batches, i);
    SyncNextBatch(ImageAt(blocks, p), batches, i);
    BatchIff(blocks, Follow(blocks, p, |Joined(batches[..i])|), batches[i]);
  }

  /** Where a batch starts. */
  lemma NextBatch(blocks: seq<seq<Message>>, p: Place, batches: seq<seq<Entry>>, i: nat)
    requires BlocksOk(blocks) && IsPlace(blocks, p) && LogTo(blocks, p) + Joined(batches) <= LogOf(blocks)
    requires i < |batches| && forall i :: 0 <= i < |batches| ==> batches[i] != []
    ensures var q, es := Follow(blocks, p, |Joined(batches[..i])|), batches[i];
      && IsPlace(blocks, q) && LogTo(blocks, q) + es <= LogOf(blocks)
      && Follow(blocks, p, |Joined(batches[..i + 1])|) == Follow(blocks, q, |es|)
  {
    hide LogTo, LogOf, ImageAt, BlocksOk, SyncBatch, SyncBatches, Follow, Joined, Messages;
    var before, es := Joined(batches[..i]), batches[i];
    JoinedPrefix(batches, i);
    JoinedPrefix(batches, i + 1);
    assert batches[..i + 1] == batches[..i] + [es];
    FollowOn(blocks, p, |before|, |es|);
    PrefixOnLog(LogTo(blocks, p), before, es, LogOf(blocks), Joined(batches));
    StreamFollows(blocks, p, before);
  }

  lemma PrefixOnLog(log: seq<Entry>, before: seq<Entry>, es: seq<Entry>, whole: seq<Entry>, all: seq<Entry>)
    requires log + all <= whole && before + es <= all
    ensures log + before <= whole && log + before + es <= whole
  {
    assert log + before + es == log + (before + es);
    assert log + (before + es) <= log + all;
  }

  /** A slave stays in step through all batches exactly when none of them crosses a block. */
  lemma LiveReplicationIff(blocks: seq<seq<Message>>, p: Place, batches: seq<seq<Entry>>)
    requires BlocksOk(blocks) && IsPlace(blocks, p) && LogTo(blocks, p) + Joined(batches) <= LogOf(blocks)
    requires forall i :: 0 <= i < |batches| ==> batches[i] != []
    ensures (forall k :: 0 <= k <= |batches| ==> InStep(blocks, p, batches, k))
      <==> forall i :: 0 <= i < |batches| ==> OneBlock(batches[i])
  {
    hide LogTo, LogOf, ImageAt, BlocksOk, OneBlock, SyncBatch, SyncBatches, Follow, IsPlace, Joined;
    if forall i :: 0 <= i < |batches| ==> OneBlock(batches[i]) {
      forall k | 0 <= k <= |batches| ensures InStep(blocks, p, batches, k) {
        JoinedPrefix(batches, k);
        LiveReplication(blocks, p, batches[..k]);
      }
    }
    if forall k :: 0 <= k <= |batches| ==> InStep(blocks, p, batches, k) {
      forall i | 0 <= i < |batches| ensures OneBlock(batches[i]) {
        StepNeedsOneBlock(blocks, p, batches, i);
      }
    }
  }
}
