/** What one sync request returns, and what a client collects over a whole run of them. */
module Paging {
  import opened Bytes
  import opened Protocol
  import opened StorageFiles
  import opened Queues

  /** A message on its way to a client, as `EMessage` carries it. */
  datatype Delivery = Delivery(msgid: int, deviceId: int, msg: Message)

  /** The result of a sync request: messages newest first, the next key, whether more are waiting. */
  datatype Page = Page(messages: seq<Delivery>, lastMsgid: int, hasMore: bool)

  /** Commands a client is shown; others stay in the queue unseen. */
  predicate IsShown(cmd: int) {
    cmd == MSG_GROUP_IM || cmd == MSG_GROUP_NOTIFICATION || cmd == MSG_IM ||
    cmd == MSG_CUSTOMER || cmd == MSG_CUSTOMER_SUPPORT || cmd == MSG_SYSTEM
  }

  function DeliveryOf(item: Item): (r: Delivery) { Delivery(item.off.msgid, item.off.deviceId, item.body) }

  /** The messages of a stretch of a queue that a client is shown, oldest first. */
  function Shown(q: seq<Item>): (r: seq<Delivery>)
    ensures |r| <= |q|
  {
    if q == [] then [] else
    var last := q[|q| - 1];
    Shown(q[..|q| - 1]) + (if IsShown(last.body.cmd) then [DeliveryOf(last)] else [])
  }

  function PeerMessages(q: seq<Item>): (r: seq<Item>)
    ensures |r| <= |q|
  {
    if q == [] then [] else
    var last := q[|q| - 1];
    PeerMessages(q[..|q| - 1]) + (if last.inGroup then [] else [last])
  }

  function Reverse<T>(s: seq<T>): (r: seq<T>)
    ensures |r| == |s|
  {
    if s == [] then [] else [s[|s| - 1]] + Reverse(s[..|s| - 1])
  }

  /** The newest `limit` elements; all of them when limit is 0. */
  function Newest<T>(s: seq<T>, limit: nat): (r: seq<T>) {
    if limit == 0 || |s| <= limit then s else s[|s| - limit..]
  }

  /** How many messages of the queue are not above the key. */
  function Below(q: seq<Item>, key: int): (n: nat)
    ensures n <= |q|
  {
    if q == [] then 0 else if q[|q| - 1].off.msgid <= key then |q| else Below(q[..|q| - 1], key)
  }

  // ---------- one page ----------

  function BatchCount(limit: nat): (r: nat) { if limit / BATCH_SIZE == 0 then 1 else limit / BATCH_SIZE }

  /** How many full batches end above the s-th message, as far as the hard limit lets the search go. */
  function BatchesAbove(n: nat, s: nat, hard: nat): (r: nat)
    requires s <= n
  {
    var all, most := n / BATCH_SIZE - s / BATCH_SIZE, hard / BATCH_SIZE;
    if most > 0 && all > most then most else all
  }

  /** Over the hard limit, and a page is no more than the hard limit: only peer messages are read. */
  predicate PeerOnly(n: nat, s: nat, limit: nat, hard: nat)
    requires s <= n
  {
    var most := hard / BATCH_SIZE;
    most > 0 && BatchesAbove(n, s, hard) == most >= BatchCount(limit)
  }

  /** The page ends after this many messages of the queue. */
  function PageEnd(n: nat, s: nat, limit: nat, hard: nat): (e: nat)
    requires s <= n
    ensures s <= e <= n
    ensures e < n ==> s < e && e % BATCH_SIZE == 0
  {
    var above, count := BatchesAbove(n, s, hard), BatchCount(limit);
    if above >= count then BATCH_SIZE * (n / BATCH_SIZE - above + count) else n
  }

  /** The records a page reads: q[s..e], or of these the peer messages and the last record. */
  function Window(q: seq<Item>, s: nat, e: nat, peer: bool): (r: seq<Item>)
    requires s <= e <= |q|
  {
    if peer && s < e then PeerMessages(q[s..e - 1]) + [q[e - 1]] else q[s..e]
  }

  /** What `LoadHistoryMessagesV3` answers. */
  function PageOf(q: seq<Item>, key: int, limit: nat, hard: nat): (r: Page) {
    var n, s := |q|, Below(q, key);
    var e := PageEnd(n, s, limit, hard);
    Page(Reverse(Newest(Shown(Window(q, s, e, PeerOnly(n, s, limit, hard))), limit)),
         if e == 0 then 0 else q[e - 1].off.msgid,
         e < n)
  }

  /** Everything a client collects by asking again with the returned key, in the order it shows it. */
  function Collected(pages: seq<Page>): (r: seq<Delivery>) {
    if pages == [] then [] else Reverse(pages[0].messages) + Collected(pages[1..])
  }

  // ---------- lemmas about the parts ----------

  lemma {:induction false} ReverseReverse<T>(s: seq<T>)
    ensures Reverse(Reverse(s)) == s
  {
    if s != [] {
      var n := |s| - 1;
      ReverseAppend([s[n]], Reverse(s[..n]));
      ReverseReverse(s[..n]);
      assert Reverse([s[n]]) == [s[n]] by { assert [s[n]][..0] == []; assert Reverse([s[n]][..0]) == []; }
    }
  }

  lemma {:induction false} ReverseAppend<T>(s: seq<T>, t: seq<T>)
    ensures Reverse(s + t) == Reverse(t) + Reverse(s)
  {
    if t == [] {
      assert s + t == s;
    } else {
      var n, all := |t| - 1, s + t;
      assert all[..|all| - 1] == s + t[..n] && all[|all| - 1] == t[n];
      assert Reverse(all) == [t[n]] + Reverse(s + t[..n]) && Reverse(t) == [t[n]] + Reverse(t[..n]);
      hide Reverse;
      ReverseAppend(s, t[..n]);
    }
  }

  lemma {:induction false} ShownConcat(p: seq<Item>, q: seq<Item>)
    ensures Shown(p + q) == Shown(p) + Shown(q)
  {
    if q == [] {
      assert p + q == p;
    } else {
      var n, all := |q| - 1, p + q;
      assert all[..|all| - 1] == p + q[..n] && all[|all| - 1] == q[n];
      ShownConcat(p, q[..n]);
    }
  }

  /** In a linked queue the messages not above a key are a prefix. */
  lemma {:induction false} BelowSplits(q: seq<Item>, key: int)
    requires QueueOk(q)
    ensures forall k :: 0 <= k < |q| ==> (q[k].off.msgid <= key <==> k < Below(q, key))
  {
    if q != [] {
      var n := |q| - 1;
      QueueOkPrefix(q, n);
      if q[n].off.msgid <= key {
        forall k | 0 <= k < |q| ensures q[k].off.msgid <= key { IdsGrow(q, k, n); }
      } else {
        BelowSplits(q[..n], key);
        forall k | 0 <= k < |q| ensures q[k].off.msgid <= key <==> k < Below(q, key) {
          if k < n { assert q[..n][k] == q[k]; }
        }
      }
    }
  }

  lemma QueueOkPrefix(q: seq<Item>, n: nat)
    requires QueueOk(q) && n <= |q|
    ensures QueueOk(q[..n])
  {
    forall k | 0 <= k < n ensures ItemOk(q[..n], k) {
      assert ItemOk(q, k) && q[..n][..k] == q[..k];
    }
  }

  lemma {:induction false} IdsGrow(q: seq<Item>, j: nat, k: nat)
    requires QueueOk(q) && j <= k < |q|
    ensures 0 < q[j].off.msgid <= q[k].off.msgid < q[k].id && q[j].id <= q[k].id
    ensures j < k ==> q[j].id < q[k].off.msgid
    decreases k
  {
    assert ItemOk(q, k);
    if j < k {
      IdsGrow(q, j, k - 1);
    } else if k > 0 {
      IdsGrow(q, k - 1, k - 1);
    }
  }

  /** The key a page returns marks its end, also after the queue has grown. */
  lemma PageKey(q: seq<Item>, e: nat, grown: seq<Item>)
    requires QueueOk(q) && QueueOk(grown) && q <= grown && e <= |q|
    ensures Below(grown, if e == 0 then 0 else q[e - 1].off.msgid) == e
  {
    var key := if e == 0 then 0 else q[e - 1].off.msgid;
    var b := Below(grown, key);
    BelowSplits(grown, key);
    if e > 0 { assert grown[e - 1].off.msgid <= key; }
    if e < |grown| {
      if e > 0 { IdsGrow(grown, e - 1, e - 1); IdsGrow(grown, e - 1, e); } else { IdsGrow(grown, 0, 0); }
      assert grown[e].off.msgid > key;
    }
  }

  /** Nothing of the stretch is left out: it shows no more than the limit, and where only peer messages are read, all
      that is shown of it are such, but for the last record. */
  predicate Whole(q: seq<Item>, s: nat, e: nat, limit: nat, peer: bool)
    requires s <= e <= |q|
  {
    && (limit == 0 || |Shown(q[s..e])| <= limit)
    && (peer && s < e ==> OnlyPeers(q[s..e - 1]))
  }

  predicate OnlyPeers(q: seq<Item>) { forall k :: 0 <= k < |q| ==> !(q[k].inGroup && IsShown(q[k].body.cmd)) }

  lemma {:induction false} PeersShown(q: seq<Item>)
    ensures |Shown(PeerMessages(q))| <= |Shown(q)|
    ensures Shown(PeerMessages(q)) == Shown(q) <==> OnlyPeers(q)
    ensures |Shown(PeerMessages(q))| == |Shown(q)| ==> OnlyPeers(q)
  {
    hide IsShown;
    if q != [] {
      var n := |q| - 1;
      var front, last := q[..n], q[n];
      PeersShown(front);
      assert OnlyPeers(q) <==> OnlyPeers(front) && !(last.inGroup && IsShown(last.body.cmd));
      assert (PeerMessages(front) + [last])[..|PeerMessages(front)|] == PeerMessages(front);
      if last.inGroup {
        assert PeerMessages(front) + [] == PeerMessages(front);
      }
    }
  }

  lemma WindowShown(q: seq<Item>, s: nat, e: nat, peer: bool)
    requires s <= e <= |q|
    ensures |Shown(Window(q, s, e, peer))| <= |Shown(q[s..e])|
    ensures Shown(Window(q, s, e, peer)) == Shown(q[s..e]) <==> (peer && s < e ==> OnlyPeers(q[s..e - 1]))
  {
    hide Shown, PeerMessages, OnlyPeers;
    if peer && s < e {
      var front := q[s..e - 1];
      PeersShown(front);
      assert q[s..e] == front + [q[e - 1]];
      ShownConcat(front, [q[e - 1]]);
      ShownConcat(PeerMessages(front), [q[e - 1]]);
      JoinParts(Shown(PeerMessages(front)), Shown(front), Shown([q[e - 1]]), Shown([q[e - 1]]));
    }
  }

  /** A page of a contiguous stretch of the queue is complete exactly when nothing of it is left out. Without a hard
      limit that is when it shows no more messages than the limit, which 1000 or more always allows. */
  lemma PageComplete(q: seq<Item>, key: int, limit: nat, hard: nat)
    ensures var n, s := |q|, Below(q, key); var e := PageEnd(n, s, limit, hard);
      && (Reverse(PageOf(q, key, limit, hard).messages) == Shown(q[s..e])
          <==> Whole(q, s, e, limit, PeerOnly(n, s, limit, hard)))
      && |Reverse(PageOf(q, key, limit, hard).messages)| <= |Shown(q[s..e])|
      && (hard == 0 ==> !PeerOnly(n, s, limit, 0) && e - s <= (if limit < BATCH_SIZE then BATCH_SIZE else limit))
  {
    hide Shown, Reverse, Below, PageEnd, PeerOnly, OnlyPeers, Window;
    var s := Below(q, key);
    var e, peer := PageEnd(|q|, s, limit, hard), PeerOnly(|q|, s, limit, hard);
    PageSpan(|q|, s, limit);
    WindowShown(q, s, e, peer);
    ReverseReverse(Newest(Shown(Window(q, s, e, peer)), limit));
  }

  lemma PageSpan(n: nat, s: nat, limit: nat)
    requires s <= n
    ensures !PeerOnly(n, s, limit, 0)
    ensures PageEnd(n, s, limit, 0) - s <= if limit < BATCH_SIZE then BATCH_SIZE else limit
  {
  }

  // ---------- runs of requests while the queue grows ----------

  /** One page per request; `qs` are the queues the requests find. */
  function Pages(qs: seq<seq<Item>>, key: int, limit: nat, hard: nat): (r: seq<Page>) {
    if qs == [] then [] else
    var page := PageOf(qs[0], key, limit, hard);
    [page] + Pages(qs[1..], page.lastMsgid, limit, hard)
  }

  /** Each request finds the queue of the one before, possibly longer. */
  predicate Growing(qs: seq<seq<Item>>) {
    && (forall i :: 0 <= i < |qs| ==> QueueOk(qs[i]))
    && (forall i :: 0 < i < |qs| ==> qs[i - 1] <= qs[i])
  }

  lemma GrowingTail(qs: seq<seq<Item>>)
    requires Growing(qs) && qs != []
    ensures Growing(qs[1..])
  {
    var tail := qs[1..];
    forall i | 0 < i < |tail| ensures tail[i - 1] <= tail[i] { assert qs[i] <= qs[i + 1]; }
  }

  lemma {:induction false} GrowingPrefix(qs: seq<seq<Item>>, i: nat)
    requires Growing(qs) && i < |qs|
    ensures qs[0] <= qs[i]
  {
    if i > 0 { GrowingPrefix(qs, i - 1); }
  }

  /** The queue of a user while the store's log grows, as long as the user's records are linked. */
  lemma QueuesGrow(logs: seq<seq<Entry>>, u: UserID)
    requires forall i :: 0 <= i < |logs| ==> LinkedQueue(Peer, logs[i], u) && Increasing(logs[i])
    requires forall i :: 0 < i < |logs| ==> logs[i - 1] <= logs[i]
    ensures Growing(seq(|logs|, i requires 0 <= i < |logs| => Queue(Peer, logs[i], u)))
  {
    hide LinkedQueue, Increasing, Queue, QueueOk;
    forall i | 0 <= i < |logs| ensures QueueOk(Queue(Peer, logs[i], u)) { QueueStructure(Peer, logs[i], u); }
    forall i | 0 < i < |logs| ensures Queue(Peer, logs[i - 1], u) <= Queue(Peer, logs[i], u) {
      assert logs[i] == logs[i - 1] + logs[i][|logs[i - 1]|..];
      QueueConcat(Peer, logs[i - 1], logs[i][|logs[i - 1]|..], u);
    }
  }

  /** Where the last of the requests stops in the queue. */
  function RunEnd(qs: seq<seq<Item>>, key: int, limit: nat, hard: nat): (r: nat)
    requires qs != []
    decreases |qs|
  {
    var page := PageOf(qs[0], key, limit, hard);
    if |qs| == 1 then PageEnd(|qs[0]|, Below(qs[0], key), limit, hard)
    else RunEnd(qs[1..], page.lastMsgid, limit, hard)
  }

  /** No page of the run leaves out anything of its stretch of the queue. */
  predicate WithinLimit(qs: seq<seq<Item>>, key: int, limit: nat, hard: nat)
    decreases |qs|
  {
    qs == [] ||
    var n, s := |qs[0]|, Below(qs[0], key);
    && Whole(qs[0], s, PageEnd(n, s, limit, hard), limit, PeerOnly(n, s, limit, hard))
    && WithinLimit(qs[1..], PageOf(qs[0], key, limit, hard).lastMsgid, limit, hard)
  }

  /** Limits of 0, 1000 and more keep every page within its limit. */
  lemma {:induction false} LargeLimits(qs: seq<seq<Item>>, key: int, limit: nat)
    requires limit == 0 || limit >= BATCH_SIZE
    ensures WithinLimit(qs, key, limit, 0)
    decreases |qs|
  {
    if qs != [] {
      PageComplete(qs[0], key, limit, 0);
      LargeLimits(qs[1..], PageOf(qs[0], key, limit, 0).lastMsgid, limit);
    }
  }

  /** Paging while messages keep arriving, with any limits: the client collects the queue from its key to where the
      last page ends, in order, without a gap or a repeat, exactly when no page leaves out anything of its stretch;
      and it has reached the end of the queue exactly when the last page says so. */
  lemma {:induction false} PagingComplete(qs: seq<seq<Item>>, key: int, limit: nat, hard: nat)
    requires qs != [] && Growing(qs)
    ensures var first, last := qs[0], qs[|qs| - 1]; var s, e := Below(first, key), RunEnd(qs, key, limit, hard);
      var pages := Pages(qs, key, limit, hard);
      && s <= e <= |last|
      && (Collected(pages) == Shown(last[s..e]) <==> WithinLimit(qs, key, limit, hard))
      && |Collected(pages)| <= |Shown(last[s..e])|
      && |pages| == |qs|
      && (pages[|qs| - 1].hasMore <==> e < |last|)
    decreases |qs|
  {
    hide Shown, Reverse, Below, PageEnd, QueueOk, PageOf, Collected, Whole, PeerOnly;
    var q, s, page := qs[0], Below(qs[0], key), PageOf(qs[0], key, limit, hard);
    PageFacts(q, key, limit, hard);
    if |qs| == 1 {
      assert qs[1..] == [];
      assert Pages(qs[1..], page.lastMsgid, limit, hard) == [];
      assert Pages(qs, key, limit, hard) == [page] + [];
      CollectedOne(page);
    } else {
      GrowingTail(qs);
      PagingComplete(qs[1..], page.lastMsgid, limit, hard);
      PagingStep(qs, key, limit, hard);
      var last, e1, e := qs[|qs| - 1], PageEnd(|q|, s, limit, hard), RunEnd(qs, key, limit, hard);
      JoinParts(Reverse(page.messages), Shown(q[s..e1]),
                Collected(Pages(qs[1..], page.lastMsgid, limit, hard)), Shown(last[e1..e]));
    }
  }

  /** The first page joins on to the pages of the other requests. */
  lemma PagingStep(qs: seq<seq<Item>>, key: int, limit: nat, hard: nat)
    requires |qs| > 1 && Growing(qs)
    requires Below(qs[1], PageOf(qs[0], key, limit, hard).lastMsgid) <= RunEnd(qs, key, limit, hard) <= |qs[|qs| - 1]|
    ensures var last := qs[|qs| - 1];
      var page, e := PageOf(qs[0], key, limit, hard), RunEnd(qs, key, limit, hard);
      var e1 := PageEnd(|qs[0]|, Below(qs[0], key), limit, hard);
      var rest := Pages(qs[1..], page.lastMsgid, limit, hard);
      && Below(qs[1], page.lastMsgid) == e1 <= e <= |last|
      && Pages(qs, key, limit, hard) == [page] + rest
      && Collected([page] + rest) == Reverse(page.messages) + Collected(rest)
      && Shown(last[Below(qs[0], key)..e]) == Shown(qs[0][Below(qs[0], key)..e1]) + Shown(last[e1..e])
      && |Reverse(page.messages)| <= |Shown(qs[0][Below(qs[0], key)..e1])|
  {
    hide Shown, Reverse, Below, PageEnd, QueueOk, PageOf, Collected, RunEnd, Whole, PeerOnly;
    var q, s, page := qs[0], Below(qs[0], key), PageOf(qs[0], key, limit, hard);
    var e1, e, last := PageEnd(|q|, s, limit, hard), RunEnd(qs, key, limit, hard), qs[|qs| - 1];
    PageFacts(q, key, limit, hard);
    PageKey(q, e1, qs[1]);
    GrowingPrefix(qs, |qs| - 1);
    CollectedCons(page, Pages(qs[1..], page.lastMsgid, limit, hard));
    ShownParts(q, last, s, e1, e);
  }

  lemma ShownParts(q: seq<Item>, last: seq<Item>, s: nat, e1: nat, e: nat)
    requires q <= last && s <= e1 <= |q| && e1 <= e <= |last|
    ensures Shown(last[s..e]) == Shown(q[s..e1]) + Shown(last[e1..e])
  {
    hide Shown;
    assert last[s..e1] == q[s..e1];
    assert last[s..e] == last[s..e1] + last[e1..e];
    ShownConcat(last[s..e1], last[e1..e]);
  }

  lemma PageFacts(q: seq<Item>, key: int, limit: nat, hard: nat)
    ensures var s := Below(q, key); var e := PageEnd(|q|, s, limit, hard); var page := PageOf(q, key, limit, hard);
      && (Reverse(page.messages) == Shown(q[s..e]) <==> Whole(q, s, e, limit, PeerOnly(|q|, s, limit, hard)))
      && |Reverse(page.messages)| <= |Shown(q[s..e])|
      && page.lastMsgid == (if e == 0 then 0 else q[e - 1].off.msgid)
      && (page.hasMore <==> e < |q|)
  {
    hide Shown, Reverse, Below, Whole;
    PageComplete(q, key, limit, hard);
  }

  /** What such a run collects in any case: the stretches its pages read adjoin, and of each it gets what `Window`
      leaves, cut to the limit. */
  function Stretches(qs: seq<seq<Item>>, s: nat, limit: nat, hard: nat): (r: seq<Delivery>)
    decreases |qs|
  {
    if qs == [] || s > |qs[0]| then [] else
    var n := |qs[0]|;
    var e := PageEnd(n, s, limit, hard);
    Newest(Shown(Window(qs[0], s, e, PeerOnly(n, s, limit, hard))), limit) + Stretches(qs[1..], e, limit, hard)
  }

  lemma {:induction false} PagingCollects(qs: seq<seq<Item>>, key: int, limit: nat, hard: nat)
    requires qs != [] && Growing(qs)
    ensures Collected(Pages(qs, key, limit, hard)) == Stretches(qs, Below(qs[0], key), limit, hard)
    decreases |qs|
  {
    hide Shown, Reverse, Below, QueueOk, PeerOnly, Window, Newest, PageEnd;
    var q, s, page := qs[0], Below(qs[0], key), PageOf(qs[0], key, limit, hard);
    var e := PageEnd(|q|, s, limit, hard);
    var rest := Pages(qs[1..], page.lastMsgid, limit, hard);
    ReverseReverse(Newest(Shown(Window(q, s, e, PeerOnly(|q|, s, limit, hard))), limit));
    assert Pages(qs, key, limit, hard) == [page] + rest;
    CollectedCons(page, rest);
    if |qs| == 1 {
      assert qs[1..] == [] && rest == [];
    } else {
      GrowingTail(qs);
      PageKey(q, e, qs[1]);
      PagingCollects(qs[1..], page.lastMsgid, limit, hard);
    }
  }

  lemma CollectedOne(page: Page)
    ensures Collected([page] + []) == Reverse(page.messages)
  {
    CollectedCons(page, []);
    assert Collected([]) == [];
  }

  lemma CollectedCons(page: Page, pages: seq<Page>)
    ensures Collected([page] + pages) == Reverse(page.messages) + Collected(pages)
  {
    assert ([page] + pages)[1..] == pages;
  }

  lemma JoinParts<T>(a: seq<T>, b: seq<T>, c: seq<T>, d: seq<T>)
    requires |a| <= |b| && |c| <= |d|
    ensures a + c == b + d <==> a == b && c == d
    ensures |a + c| <= |b + d|
  {
    if a + c == b + d {
      assert |a| == |b|;
      assert a == (a + c)[..|a|] == b;
      assert c == (a + c)[|a|..] == (b + d)[|b|..] == d;
    }
  }

  // ---------- a run on a quiet queue ----------

  /** Asking until the server has no more; each page moves the key on, so the run ends. */
  ghost function Run(q: seq<Item>, key: int, limit: nat, hard: nat): (r: seq<Page>)
    requires QueueOk(q)
    decreases |q| - Below(q, key)
  {
    var page := PageOf(q, key, limit, hard);
    var e := PageEnd(|q|, Below(q, key), limit, hard);
    PageKey(q, e, q);
    [page] + if page.hasMore then Run(q, page.lastMsgid, limit, hard) else []
  }

  predicate NoHardStop(n: nat, s: nat, limit: nat, hard: nat)
    requires s <= n
  {
    hard / BATCH_SIZE == 0 || (!PeerOnly(n, s, limit, hard) && hard / BATCH_SIZE >= BatchCount(limit))
  }

  /** A run below the hard limit, with an unlimited or large enough page, collects the whole rest. */
  lemma {:induction false} QuietRun(q: seq<Item>, key: int, limit: nat, hard: nat)
    requires QueueOk(q) && (limit == 0 || limit >= BATCH_SIZE)
    requires NoHardStop(|q|, Below(q, key), limit, hard)
    ensures Collected(Run(q, key, limit, hard)) == Shown(q[Below(q, key)..])
    decreases |q| - Below(q, key)
  {
    hide Shown, Reverse, Below, QueueOk, Collected, PageOf, PageEnd, NoHardStop;
    var n, s := |q|, Below(q, key);
    var e := PageEnd(n, s, limit, hard);
    var page := PageOf(q, key, limit, hard);
    QuietPage(q, key, limit, hard);
    PageFacts(q, key, limit, 0);
    PageComplete(q, key, limit, 0);
    PageKey(q, e, q);
    if e < n {
      var rest := Run(q, page.lastMsgid, limit, hard);
      assert Run(q, key, limit, hard) == [page] + rest;
      CollectedCons(page, rest);
      QuietRun(q, page.lastMsgid, limit, hard);
      assert q[s..] == q[s..e] + q[e..];
      ShownConcat(q[s..e], q[e..]);
    } else {
      assert Run(q, key, limit, hard) == [page] + [];
      CollectedOne(page);
      assert q[s..e] == q[s..];
    }
  }

  /** A smaller limit does lose messages: of a queue of two, a client asking one at a time gets the second. */
  lemma SmallLimitLoses(m: Message)
    requires m.cmd == MSG_IM
    ensures var q := [Item(60, Offline(1, 1, 32, 0, 1, 0, 0, 0), false, m),
                      Item(120, Offline(1, 1, 90, 0, 2, 60, 60, 0), false, m)];
      && QueueOk(q) && Shown(q) == [DeliveryOf(q[0]), DeliveryOf(q[1])]
      && PageOf(q, 0, 1, 0) == Page([DeliveryOf(q[1])], 90, false)
  {
    var a := Item(60, Offline(1, 1, 32, 0, 1, 0, 0, 0), false, m);
    var b := Item(120, Offline(1, 1, 90, 0, 2, 60, 60, 0), false, m);
    var q := [a, b];
    assert q[..0] == [] && q[..1] == [a] && [a][..0] == [];
    assert ItemOk(q, 0) && ItemOk(q, 1);
    assert Shown([a]) == Shown([]) + [DeliveryOf(a)];
    assert Shown(q) == Shown([a]) + [DeliveryOf(b)];
    assert Below([], 0) == 0 && Below([a], 0) == Below([], 0) && Below(q, 0) == Below([a], 0);
    assert q[0..2] == q;
    var last := [DeliveryOf(b)];
    assert Newest(Shown(q), 1) == last;
    assert last[..0] == [];
    assert Reverse(last) == last + Reverse<Delivery>([]);
  }

  /** A page below the hard limit, and the pages after it, are those of no hard limit. */
  lemma QuietPage(q: seq<Item>, key: int, limit: nat, hard: nat)
    requires NoHardStop(|q|, Below(q, key), limit, hard)
    ensures var s := Below(q, key); var e := PageEnd(|q|, s, limit, 0);
      && PageEnd(|q|, s, limit, hard) == e && NoHardStop(|q|, e, limit, hard)
      && PageOf(q, key, limit, hard) == PageOf(q, key, limit, 0)
  {
    hide Shown, Reverse, Below;
  }

  /** Over the hard limit, the first page holds peer messages only, except possibly its last record, and
      never more than the limit; everything after that page is delivered; in all, a run returns at most
      the page, the hard limit less one page, and an unfinished batch. */
  lemma HardLimitRun(q: seq<Item>, key: int, limit: nat, hard: nat)
    requires QueueOk(q) && limit >= BATCH_SIZE && hard / BATCH_SIZE >= BatchCount(limit)
    ensures var s := Below(q, key); var run := Collected(Run(q, key, limit, hard));
      && (if PeerOnly(|q|, s, limit, hard)
          then var e := PageEnd(|q|, s, limit, hard);
            run == Newest(Shown(PeerMessages(q[s..e - 1]) + [q[e - 1]]), limit) + Shown(q[e..])
          else run == Shown(q[s..]))
      && |run| <= limit + BATCH_SIZE * (hard / BATCH_SIZE - BatchCount(limit)) + BATCH_SIZE - 1
      && (limit % BATCH_SIZE == 0 ==> |run| <= hard + 999)
  {
    hide Shown, Reverse, Below, QueueOk, PeerMessages, PageOf, Run, Collected;
    if PeerOnly(|q|, Below(q, key), limit, hard) {
      HardStopRun(q, key, limit, hard);
    } else {
      QuietRun(q, key, limit, hard);
    }
  }

  /** The run after a page that read peer messages only, also without a limit. */
  lemma HardStopRun(q: seq<Item>, key: int, limit: nat, hard: nat)
    requires QueueOk(q) && (limit == 0 || limit >= BATCH_SIZE) && PeerOnly(|q|, Below(q, key), limit, hard)
    ensures var s := Below(q, key); var e := PageEnd(|q|, s, limit, hard);
      Collected(Run(q, key, limit, hard)) == Newest(Shown(Window(q, s, e, true)), limit) + Shown(q[e..])
  {
    hide Shown, Reverse, Below, QueueOk, Window, Collected;
    var n, s := |q|, Below(q, key);
    var e, page := PageEnd(n, s, limit, hard), PageOf(q, key, limit, hard);
    ReverseReverse(Newest(Shown(Window(q, s, e, true)), limit));
    PageKey(q, e, q);
    if e < n {
      var rest := Run(q, page.lastMsgid, limit, hard);
      assert Run(q, key, limit, hard) == [page] + rest;
      CollectedCons(page, rest);
      QuietRun(q, page.lastMsgid, limit, hard);
    } else {
      assert Run(q, key, limit, hard) == [page] + [];
      CollectedOne(page);
      assert q[e..] == [];
      ShownNothing();
    }
  }

  /** A hard limit below the page size: the search never finds enough batches, so one page covers all the rest
      and shows the newest of it. Nothing is lost exactly when the rest shows no more than the limit. */
  lemma LowHardLimit(q: seq<Item>, key: int, limit: nat, hard: nat)
    requires QueueOk(q) && 0 < hard / BATCH_SIZE < BatchCount(limit)
    ensures var rest, run := Shown(q[Below(q, key)..]), Collected(Run(q, key, limit, hard));
      run == Newest(rest, limit) && (run == rest <==> |rest| <= limit)
  {
    hide Shown, Reverse, Below, QueueOk, Collected;
    var s, page := Below(q, key), PageOf(q, key, limit, hard);
    assert PageEnd(|q|, s, limit, hard) == |q|;
    assert q[s..|q|] == q[s..];
    ReverseReverse(Newest(Shown(q[s..]), limit));
    assert Run(q, key, limit, hard) == [page] + [];
    CollectedOne(page);
  }

  lemma ShownNothing() ensures Shown([]) == [] {}

  // ---------- the chain a page walks ----------

  /** The records reached from q[e - 1]: by the message links, or by the peer links. */
  function Chain(q: seq<Item>, e: nat, peer: bool): (r: seq<Item>)
    requires e <= |q|
  {
    if peer && e > 0 then PeerMessages(q[..e - 1]) + [q[e - 1]] else q[..e]
  }

  /** Each record of a chain links to the one before it, which is older than its message. */
  predicate ChainOk(w: seq<Item>, peer: bool) {
    forall k :: 0 <= k < |w| ==>
      && (if peer then w[k].off.prevPeerMsgid else w[k].off.prevMsgid) == IdBefore(w, k)
      && 0 <= IdBefore(w, k) < w[k].off.msgid < w[k].id
  }

  lemma {:induction false} PeerMessagesConcat(p: seq<Item>, q: seq<Item>)
    ensures PeerMessages(p + q) == PeerMessages(p) + PeerMessages(q)
  {
    if q == [] {
      assert p + q == p;
    } else {
      var n, all := |q| - 1, p + q;
      assert all[..|all| - 1] == p + q[..n] && all[|all| - 1] == q[n];
      PeerMessagesConcat(p, q[..n]);
    }
  }

  lemma {:induction false} PeerMessagesIn(q: seq<Item>)
    ensures forall x :: x in PeerMessages(q) ==> x in q
  {
    if q != [] { PeerMessagesIn(q[..|q| - 1]); }
  }

  lemma {:induction false} PeerChain(q: seq<Item>, k: nat)
    requires QueueOk(q) && k <= |q|
    ensures PeerChainOk(PeerMessages(q[..k]), LastPeer(q[..k])) && LastPeer(q[..k]) <= IdBefore(q, k)
  {
    hide QueueOk, PeerChainOk, PeerMessages, LastPeer;
    if k == 0 {
      NoPeers();
    } else {
      PeerChain(q, k - 1);
      PeerLink(q, k - 1);
      var front, last := q[..k - 1], q[k - 1];
      if last.inGroup {
        assert PeerMessages(front) + [] == PeerMessages(front);
      } else {
        PeerChainAppend(PeerMessages(front), LastPeer(front), last);
      }
    }
  }

  lemma NoPeers() ensures PeerChainOk(PeerMessages([]), LastPeer([])) && LastPeer([]) == 0 {}

  predicate PeerChainOk(w: seq<Item>, lastId: int) { ChainOk(w, true) && IdBefore(w, |w|) == lastId }

  /** The peer messages and the last of them, one record on. */
  lemma PeerLink(q: seq<Item>, k: nat)
    requires QueueOk(q) && k < |q|
    ensures var front, last := q[..k], q[k];
      && PeerMessages(q[..k + 1]) == PeerMessages(front) + (if last.inGroup then [] else [last])
      && LastPeer(q[..k + 1]) == (if last.inGroup then LastPeer(front) else last.id)
      && last.off.prevPeerMsgid == LastPeer(front) && IdBefore(q, k) < last.off.msgid < last.id == IdBefore(q, k + 1)
  {
    assert q[..k + 1][..k] == q[..k];
    assert ItemOk(q, k);
  }

  lemma PeerChainAppend(w: seq<Item>, lastId: int, last: Item)
    requires PeerChainOk(w, lastId) && last.off.prevPeerMsgid == lastId < last.off.msgid < last.id
    ensures PeerChainOk(w + [last], last.id)
  {
    if w != [] { assert w[|w| - 1].id > w[|w| - 1].off.msgid > IdBefore(w, |w| - 1) >= 0; }
    ChainAppend(w, last, true);
  }

  lemma ChainAppend(w: seq<Item>, item: Item, peer: bool)
    requires ChainOk(w, peer)
    requires (if peer then item.off.prevPeerMsgid else item.off.prevMsgid) == IdBefore(w, |w|)
    requires 0 <= IdBefore(w, |w|) < item.off.msgid < item.id
    ensures ChainOk(w + [item], peer)
  {
    var all := w + [item];
    forall k | 0 <= k < |all|
      ensures (if peer then all[k].off.prevPeerMsgid else all[k].off.prevMsgid) == IdBefore(all, k)
      ensures 0 <= IdBefore(all, k) < all[k].off.msgid < all[k].id
    {
      assert IdBefore(all, k) == IdBefore(w, k);
      if k < |w| { assert all[k] == w[k]; }
    }
  }

  lemma ChainIsOk(q: seq<Item>, e: nat, peer: bool)
    requires QueueOk(q) && e <= |q|
    ensures ChainOk(Chain(q, e, peer), peer)
    ensures forall x :: x in Chain(q, e, peer) ==> x in q
  {
    hide QueueOk, ChainOk, PeerMessages;
    if peer && e > 0 {
      PeerChain(q, e - 1);
      PeerMessagesIn(q[..e - 1]);
      PeerLink(q, e - 1);
      PeerChainAppend(PeerMessages(q[..e - 1]), LastPeer(q[..e - 1]), q[e - 1]);
    } else {
      MessageChain(q, e, peer);
    }
  }

  lemma MessageChain(q: seq<Item>, e: nat, peer: bool)
    requires QueueOk(q) && e <= |q| && (peer ==> e == 0)
    ensures ChainOk(q[..e], peer)
  {
    forall k | 0 <= k < e ensures ItemOk(q, k) && IdBefore(q[..e], k) == IdBefore(q, k) >= 0 {
      if k > 0 { IdsGrow(q, k - 1, k - 1); }
    }
  }

  lemma {:induction false} BelowIs(w: seq<Item>, b: nat, key: int)
    requires b <= |w|
    requires forall k :: 0 <= k < b ==> w[k].off.msgid <= key
    requires forall k :: b <= k < |w| ==> w[k].off.msgid > key
    ensures Below(w, key) == b
  {
    if b < |w| { BelowIs(w[..|w| - 1], b, key); }
  }

  /** The part of the chain above the key is the page's window. */
  lemma ChainAboveKey(q: seq<Item>, key: int, e: nat, peer: bool)
    requires QueueOk(q) && Below(q, key) <= e <= |q| && (peer ==> Below(q, key) < e)
    ensures var w := Chain(q, e, peer); w[Below(w, key)..] == Window(q, Below(q, key), e, peer)
  {
    hide QueueOk, Below, PeerMessages;
    var s := Below(q, key);
    BelowSplits(q, key);
    var w := Chain(q, e, peer);
    if peer {
      PeersAboveKey(q, key, e);
    } else {
      BelowIs(w, s, key);
      assert q[..e][s..] == q[s..e];
    }
  }

  lemma PeersAboveKey(q: seq<Item>, key: int, e: nat)
    requires QueueOk(q) && Below(q, key) < e <= |q|
    ensures var w := PeerMessages(q[..e - 1]) + [q[e - 1]];
      w[Below(w, key)..] == PeerMessages(q[Below(q, key)..e - 1]) + [q[e - 1]]
  {
    hide QueueOk, Below, PeerMessages;
    var s := Below(q, key);
    BelowSplits(q, key);
    var low, high := PeerMessages(q[..s]), PeerMessages(q[s..e - 1]);
    assert q[..e - 1] == q[..s] + q[s..e - 1];
    PeerMessagesConcat(q[..s], q[s..e - 1]);
    PeerMessagesIn(q[..s]);
    PeerMessagesIn(q[s..e - 1]);
    forall k | 0 <= k < |low| ensures low[k].off.msgid <= key { assert low[k] in q[..s]; }
    forall k | 0 <= k < |high| ensures high[k].off.msgid > key { assert high[k] in q[s..e - 1]; }
    BelowIs(low + (high + [q[e - 1]]), |low|, key);
    assert low + (high + [q[e - 1]]) == low + high + [q[e - 1]];
  }
}
