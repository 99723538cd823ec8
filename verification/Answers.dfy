/** What a sync request answers, message by message: which messages of the queue a page delivers and where it ends. */
module Answers {
  import opened Protocol
  import opened StorageFiles
  import opened Queues
  import opened Paging

  /** Of the full batches of 1000, the last `count` end above the key. */
  predicate EndsAbove(q: seq<Item>, key: int, count: nat) {
    0 < count <= |q| / 1000 && q[1000 * (|q| / 1000 - count + 1) - 1].off.msgid > key
  }

  /** How many batches a page may span. */
  function PageBatches(limit: nat): (r: nat) { if limit < 1000 then 1 else limit / 1000 }

  /** More is waiting than the hard limit allows, and the hard limit is no less than a page. */
  predicate OverHardLimit(q: seq<Item>, key: int, limit: nat, hard: nat) {
    hard / 1000 >= PageBatches(limit) && EndsAbove(q, key, hard / 1000)
  }

  /** The page ends behind e messages of the queue: with the batch that leaves the hard limit less a page; or with the
      last of as many batches ending above the key as a page may span; or, if there are not so many, with the queue. */
  predicate EndsAt(q: seq<Item>, key: int, limit: nat, hard: nat, e: nat) {
    var count, most := PageBatches(limit), hard / 1000;
    if OverHardLimit(q, key, limit, hard) then
      e == 1000 * (|q| / 1000 - most + count)
    else if EndsAbove(q, key, count) && (hard < 1000 || count <= most) then
      && e % 1000 == 0 && 1000 * count <= e <= |q| && q[e - 1000 * (count - 1) - 1].off.msgid > key
      && (e > 1000 * count ==> q[e - 1000 * count - 1].off.msgid <= key)
    else
      e == |q|
  }

  /** What a client is sent of a queue's element, if the message has one of the six commands it is shown. */
  predicate Carries(d: Delivery, item: Item) {
    && d.msgid == item.off.msgid && d.deviceId == item.off.deviceId && d.msg == item.body
    && item.body.cmd in {MSG_IM, MSG_GROUP_IM, MSG_CUSTOMER, MSG_CUSTOMER_SUPPORT, MSG_SYSTEM, MSG_GROUP_NOTIFICATION}
  }

  /** The answer to a request for a queue's messages above a key. It delivers messages between the key and its own end
      that have one of six commands, newest first, each once and no more than the limit; and all of them, but for
      those older than a full page and, over the hard limit, the group messages before the last. */
  ghost predicate Answer(q: seq<Item>, key: int, limit: nat, hard: nat, page: Page) {
    && Ending(q, key, limit, hard, page)
    && (forall d :: d in page.messages ==> Owed(q, key, limit, hard, page, d))
    && (forall i, j :: 0 <= i < j < |page.messages| ==> page.messages[i].msgid > page.messages[j].msgid)
    && (limit > 0 ==> |page.messages| <= limit)
    && (forall d :: Owed(q, key, limit, hard, page, d) ==>
          d in page.messages || (|page.messages| == limit > 0 && NewerThan(page.messages, d.msgid)))
  }

  /** The client's next key is the last message of the page, and there is more exactly if there are messages behind. */
  predicate Ending(q: seq<Item>, key: int, limit: nat, hard: nat, page: Page) {
    if q == [] then page.lastMsgid == 0 && !page.hasMore else
    exists e :: 0 < e <= |q| && EndsAt(q, key, limit, hard, e)
      && page.lastMsgid == q[e - 1].off.msgid && (page.hasMore <==> e < |q|)
  }

  predicate Owed(q: seq<Item>, key: int, limit: nat, hard: nat, page: Page, d: Delivery) {
    exists k :: 0 <= k < |q| && Carries(d, q[k]) && InPage(q[k], q, key, limit, hard, page)
  }

  /** Between the key and the end of the page; over the hard limit, no group message either, unless it is the last. */
  predicate InPage(item: Item, q: seq<Item>, key: int, limit: nat, hard: nat, page: Page) {
    && key < item.off.msgid <= page.lastMsgid
    && (OverHardLimit(q, key, limit, hard) ==> !item.inGroup || item.off.msgid == page.lastMsgid)
  }

  predicate NewerThan(messages: seq<Delivery>, msgid: int) {
    forall j :: 0 <= j < |messages| ==> messages[j].msgid > msgid
  }

  // ---------- the parts of a page ----------

  predicate Ordered(w: seq<Item>) { forall i, j :: 0 <= i < j < |w| ==> w[i].off.msgid < w[j].off.msgid }

  lemma QueueOrdered(q: seq<Item>)
    requires QueueOk(q)
    ensures Ordered(q)
  {
    hide QueueOk;
    forall i, j | 0 <= i < j < |q| ensures q[i].off.msgid < q[j].off.msgid {
      IdsGrow(q, i, i);
      IdsGrow(q, i, j);
    }
  }

  lemma {:induction false} PeersAre(w: seq<Item>)
    requires Ordered(w)
    ensures Ordered(PeerMessages(w))
    ensures forall x :: x in PeerMessages(w) <==> x in w && !x.inGroup
  {
    if w != [] {
      var n := |w| - 1;
      var front, peers := w[..n], PeerMessages(w[..n]);
      PeersAre(front);
      forall i | 0 <= i < |peers| ensures peers[i].off.msgid < w[n].off.msgid {
        assert peers[i] in front;
      }
      assert PeerMessages(w) == peers + if w[n].inGroup then [] else [w[n]];
      hide PeerMessages;
      forall x ensures x in PeerMessages(w) <==> x in w && !x.inGroup {
        assert x in w <==> x in front || x == w[n];
      }
    }
  }

  lemma WindowIs(q: seq<Item>, s: nat, e: nat, peer: bool)
    requires Ordered(q) && s <= e <= |q|
    ensures var w := Window(q, s, e, peer);
      && Ordered(w)
      && (forall x :: x in w ==> exists k :: s <= k < e && x == q[k] && (peer && k < e - 1 ==> !x.inGroup))
      && (forall k :: s <= k < e && (peer && k < e - 1 ==> !q[k].inGroup) ==> q[k] in w)
  {
    hide PeerMessages;
    var w := Window(q, s, e, peer);
    if peer && s < e {
      PeersAre(q[s..e - 1]);
      forall x | x in w ensures exists k :: s <= k < e && x == q[k] && (peer && k < e - 1 ==> !x.inGroup) {
        if x in PeerMessages(q[s..e - 1]) { assert x in q[s..e - 1]; } else { assert x == q[e - 1]; }
      }
      forall k | s <= k < e && (k < e - 1 ==> !q[k].inGroup) ensures q[k] in w {
        if k < e - 1 { assert q[k] in q[s..e - 1]; }
      }
      forall i, j | 0 <= i < j < |w| ensures w[i].off.msgid < w[j].off.msgid {
        assert w[i] in PeerMessages(q[s..e - 1]);
        assert w[i] in q[s..e - 1];
      }
    } else {
      forall k | s <= k < e ensures q[k] in w { assert w[k - s] == q[k]; }
    }
  }

  /** The messages shown of a stretch are those with one of the six commands, in order. */
  lemma {:induction false} ShownAre(w: seq<Item>)
    requires Ordered(w)
    ensures forall i, j :: 0 <= i < j < |Shown(w)| ==> Shown(w)[i].msgid < Shown(w)[j].msgid
    ensures forall d :: d in Shown(w) <==> exists k :: 0 <= k < |w| && Carries(d, w[k])
  {
    if w != [] {
      var n := |w| - 1;
      var front := w[..n];
      ShownAre(front);
      forall d ensures d in Shown(w) <==> exists k :: 0 <= k < |w| && Carries(d, w[k]) {
        assert forall k :: 0 <= k < n ==> front[k] == w[k];
        assert d in Shown(w) <==> d in Shown(front) || Carries(d, w[n]);
      }
      forall i | 0 <= i < |Shown(front)| ensures Shown(front)[i].msgid < w[n].off.msgid {
        assert Shown(front)[i] in Shown(front);
      }
    }
  }

  lemma {:induction false} ReverseAt<T>(s: seq<T>)
    ensures forall i :: 0 <= i < |s| ==> Reverse(s)[i] == s[|s| - 1 - i]
  {
    if s != [] { ReverseAt(s[..|s| - 1]); }
  }

  /** Newest first, no more than the limit; what is left out is older than all of a full page. */
  lemma NewestFirst(s: seq<Delivery>, limit: nat)
    requires forall i, j :: 0 <= i < j < |s| ==> s[i].msgid < s[j].msgid
    ensures var r := Reverse(Newest(s, limit));
      && (forall j :: 0 <= j < |r| ==> r[j] in s)
      && (forall i, j :: 0 <= i < j < |r| ==> r[i].msgid > r[j].msgid)
      && (limit > 0 ==> |r| <= limit)
      && (forall d :: d in s ==> d in r || (|r| == limit > 0 && NewerThan(r, d.msgid)))
  {
    hide Reverse;
    var t := Newest(s, limit);
    ReverseAt(t);
    forall d | d in s ensures d in Reverse(t) || (|t| == limit > 0 && NewerThan(Reverse(t), d.msgid)) {
      var i :| 0 <= i < |s| && s[i] == d;
      var cut := |s| - |t|;
      if i >= cut { assert Reverse(t)[|t| - 1 - (i - cut)] == d; }
    }
  }

  lemma EndIs(q: seq<Item>, key: int, limit: nat, hard: nat)
    requires QueueOk(q)
    ensures var n, s := |q|, Below(q, key);
      EndsAt(q, key, limit, hard, PageEnd(n, s, limit, hard)) &&
      (PeerOnly(n, s, limit, hard) <==> OverHardLimit(q, key, limit, hard))
  {
    hide Below, QueueOk;
    BelowSplits(q, key);
    if hard >= 1000 { EndsAboveIs(q, key, hard / 1000); }
    EndsAboveIs(q, key, PageBatches(limit));
  }

  lemma EndsAboveIs(q: seq<Item>, key: int, count: nat)
    requires QueueOk(q) && 0 < count
    ensures EndsAbove(q, key, count) <==> |q| / 1000 - Below(q, key) / 1000 >= count
  {
    hide Below, QueueOk;
    BelowSplits(q, key);
  }

  lemma EndingIs(q: seq<Item>, key: int, limit: nat, hard: nat)
    requires QueueOk(q)
    ensures Ending(q, key, limit, hard, PageOf(q, key, limit, hard))
  {
    hide Below, QueueOk, Shown, Reverse, Newest, Window, PageEnd, PeerOnly, EndsAt;
    EndIs(q, key, limit, hard);
  }

  lemma OwedIs(q: seq<Item>, key: int, limit: nat, hard: nat, d: Delivery)
    requires QueueOk(q)
    ensures var n, s := |q|, Below(q, key); var e := PageEnd(n, s, limit, hard);
      Owed(q, key, limit, hard, PageOf(q, key, limit, hard), d) <==>
        d in Shown(Window(q, s, e, PeerOnly(n, s, limit, hard)))
  {
    hide Below, QueueOk, Shown, Reverse, Newest, Window, PageEnd, PeerOnly, EndsAt, OverHardLimit, Carries;
    var n, s, page := |q|, Below(q, key), PageOf(q, key, limit, hard);
    var e, peer := PageEnd(n, s, limit, hard), PeerOnly(n, s, limit, hard);
    var w := Window(q, s, e, peer);
    EndIs(q, key, limit, hard);
    BelowSplits(q, key);
    QueueOrdered(q);
    WindowIs(q, s, e, peer);
    ShownAre(w);
    forall k | 0 <= k < n ensures InPage(q[k], q, key, limit, hard, page) <==> q[k] in w {
      if s < e { assert q[k].off.msgid <= q[e - 1].off.msgid <==> k <= e - 1; }
    }
    if d in Shown(w) {
      var i :| 0 <= i < |w| && Carries(d, w[i]);
      assert w[i] in w;
    }
  }

  /** What the function of the request computes is the answer to it. */
  lemma AnswerIs(q: seq<Item>, key: int, limit: nat, hard: nat)
    requires QueueOk(q)
    ensures Answer(q, key, limit, hard, PageOf(q, key, limit, hard))
  {
    hide Below, QueueOk, Shown, Reverse, Newest, Window, PageEnd, PeerOnly, EndsAt, OverHardLimit, Owed, Ending;
    var n, s, page := |q|, Below(q, key), PageOf(q, key, limit, hard);
    var e, peer := PageEnd(n, s, limit, hard), PeerOnly(n, s, limit, hard);
    BelowSplits(q, key);
    QueueOrdered(q);
    WindowIs(q, s, e, peer);
    var shown := Shown(Window(q, s, e, peer));
    ShownAre(Window(q, s, e, peer));
    NewestFirst(shown, limit);
    EndingIs(q, key, limit, hard);
    assert page.messages == Reverse(Newest(shown, limit));
    forall d ensures Owed(q, key, limit, hard, page, d) <==> d in shown {
      OwedIs(q, key, limit, hard, d);
    }
    forall d | d in page.messages ensures Owed(q, key, limit, hard, page, d) {
      var j :| 0 <= j < |page.messages| && page.messages[j] == d;
      assert page.messages[j] in shown;
    }
    forall d | Owed(q, key, limit, hard, page, d)
      ensures d in page.messages || (|page.messages| == limit > 0 && NewerThan(page.messages, d.msgid))
    {
      assert d in shown;
    }
  }

  // ---------- group messages among a user's ----------

  /** The elements of a linked queue that count as group messages are those whose message is one by its command or by
      its flag. */
  lemma {:induction false} MarkedGroups(log: seq<Entry>, u: UserID)
    requires LinkedQueue(Peer, log, u)
    ensures forall item :: item in Queue(Peer, log, u) ==>
      (item.inGroup <==> item.body.cmd == MSG_GROUP_IM || item.body.flag / 4 % 2 == 1)
  {
    hide IndexOf;
    if log != [] {
      var n := |log| - 1;
      LinkedQueuePrefix(Peer, log, n, u);
      MarkedGroups(log[..n], u);
      assert IsRecord(Peer, log[n].msg) && Owner(Peer, log[n].msg) == u ==> RecordOk(Peer, log, n);
    }
  }

  /** So the peer messages of a user are exactly the others. */
  lemma PeersOfSaves(log: seq<Entry>, u: UserID)
    requires LinkedQueue(Peer, log, u) && Increasing(log)
    ensures forall item :: item in PeerMessages(Queue(Peer, log, u)) <==>
      item in Queue(Peer, log, u) && item.body.cmd != MSG_GROUP_IM && item.body.flag / 4 % 2 == 0
  {
    hide Queue, LinkedQueue, QueueOk;
    QueueStructure(Peer, log, u);
    QueueOrdered(Queue(Peer, log, u));
    PeersAre(Queue(Peer, log, u));
    MarkedGroups(log, u);
  }
}
