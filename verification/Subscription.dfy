/** Which users and rooms are on which access server: im/channel.go counts connections and tells the route
    server, imr/client.go and imr/route.go keep what they are told. */
module Subscription {

  /** A user or a room of an application. The two-level maps of the source are one map here. */
  datatype Key = UserKey(appid: int, uid: int) | RoomKey(appid: int, roomId: int)

  /** One connection of a user, or one member of a room. */
  datatype Conn = Conn(key: Key, online: bool)

  /** The messages to the route server: subscribe with an online flag, and unsubscribe. */
  datatype Event = Set(key: Key, online: bool) | Clear(key: Key)

  /** What the route server knows: who is present, and who is online. */
  type View = map<Key, bool>

  function Apply(v: View, e: Event): (r: View) {
    match e
    case Set(key, online) => v[key := online]
    case Clear(key) => v - {key}
  }

  function ApplyAll(v: View, es: seq<Event>): (r: View) {
    if es == [] then v else Apply(ApplyAll(v, es[..|es| - 1]), es[|es| - 1])
  }

  // ---------- packed counts ----------

  const LIMIT := 0x1_0000

  /** Low 16 bits: all connections; high 16 bits: the online ones. */
  function Pack(online: int, total: int): (r: int) { online * LIMIT + total }
  function Total(count: int): (r: int) { count % LIMIT }
  function Online(count: int): (r: int) { count / LIMIT % LIMIT }

  /** `c2<<16 | c1` for a c1 of at most 17 bits. */
  function Join(c2: int, c1: int): (r: int)
    requires 0 <= c1 <= LIMIT
  {
    if c1 < LIMIT then c2 * LIMIT + c1 else (if c2 % 2 == 0 then c2 + 1 else c2) * LIMIT
  }

  /** The count after one more connection. */
  function Added(count: int, online: bool): (r: int) {
    Join(if online then Online(count) + 1 else Online(count), Total(count) + 1)
  }

  /** The count stays a faithful pair exactly up to 65535 connections of a user. */
  lemma PackedCountIff(online: int, total: int, on: bool)
    requires 0 <= online <= total < LIMIT
    ensures var next := Added(Pack(online, total), on);
      Total(next) == total + 1 && Online(next) == online + (if on then 1 else 0) <==> total + 1 < LIMIT
  {
    PackParts(online, total);
    if total + 1 < LIMIT { PackParts(if on then online + 1 else online, total + 1); }
  }

  /** The count after one connection less; the source deletes it instead when no connection is left. */
  function Removed(count: int, online: bool): (r: int)
    requires Total(count) > 0
  {
    Join(if online then Online(count) - 1 else Online(count), Total(count) - 1)
  }

  /** Removing keeps the count faithful exactly when an online removal finds an online connection; otherwise
      the online count wraps around to 65535. */
  lemma PackedRemovalIff(online: int, total: int, on: bool)
    requires 0 <= online <= total < LIMIT && total > 1
    ensures Total(Pack(online, total)) > 0
    ensures var next := Removed(Pack(online, total), on);
      && (Total(next) == total - 1 && Online(next) == online - (if on then 1 else 0) <==> !on || online > 0)
      && (on && online == 0 ==> Online(next) == 0xffff)
  {
    PackParts(online, total);
    var left := if on then online - 1 else online;
    if left >= 0 {
      PackParts(left, total - 1);
    } else {
      assert Join(left, total - 1) / LIMIT == -1;
    }
  }

  lemma PackParts(online: int, total: int)
    requires 0 <= online < LIMIT && 0 <= total < LIMIT
    ensures Total(Pack(online, total)) == total && Online(Pack(online, total)) == online
  {
    assert Pack(online, total) / LIMIT == online;
  }

  // ---------- the connections, and the view they amount to ----------

  function Count(conns: multiset<Conn>, key: Key): (r: nat) { conns[Conn(key, true)] + conns[Conn(key, false)] }
  function OnlineCount(conns: multiset<Conn>, key: Key): (r: nat) { conns[Conn(key, true)] }

  /** A key is present exactly when it has a connection, and online exactly when it has an online one. */
  ghost predicate Shows(v: View, conns: multiset<Conn>) {
    forall key :: (key in v <==> Count(conns, key) > 0) && (key in v ==> (v[key] <==> OnlineCount(conns, key) > 0))
  }

  /** A user's count is packed and below the limit; a room's is plain, and its members are all online. */
  ghost predicate CountOk(counts: map<Key, int>, conns: multiset<Conn>, key: Key) {
    var total, online := Count(conns, key), OnlineCount(conns, key);
    && (key in counts <==> total > 0)
    && (if key.UserKey? then total < LIMIT else online == total)
    && (key in counts ==> counts[key] == if key.UserKey? then Pack(online, total) else total)
  }

  ghost predicate Counts(counts: map<Key, int>, conns: multiset<Conn>) { forall key :: CountOk(counts, conns, key) }

  /** A change that concerns one key keeps the counts right when that key's count is. */
  lemma CountsChange(was: map<Key, int>, conns: multiset<Conn>, counts: map<Key, int>, next: multiset<Conn>, c: Conn)
    requires Counts(was, conns) && CountOk(counts, next, c.key)
    requires next == conns + multiset{c} || (c in conns && next == conns - multiset{c})
    requires counts - {c.key} == was - {c.key}
    ensures Counts(counts, next)
  {
    forall key ensures CountOk(counts, next, key) {
      if key != c.key {
        assert CountOk(was, conns, key);
        assert key in counts <==> key in counts - {c.key};
        assert key in was <==> key in was - {c.key};
        if key in counts { assert counts[key] == (counts - {c.key})[key] == (was - {c.key})[key]; }
      }
    }
  }

  lemma TooMany(counts: map<Key, int>, conns: multiset<Conn>, key: Key)
    requires key.UserKey? && Count(conns, key) >= LIMIT
    ensures !Counts(counts, conns)
  {
    assert !CountOk(counts, conns, key);
  }

  /** A count less while no connection has gone is wrong. */
  lemma WrongKind(was: map<Key, int>, conns: multiset<Conn>, counts: map<Key, int>, key: Key, online: int)
    requires Counts(was, conns) && key.UserKey? && key in was
    requires var c1 := Total(was[key]) - 1;
      if c1 > 0 then key in counts && counts[key] == Join(online, c1) else key !in counts
    ensures !Counts(counts, conns)
  {
    assert CountOk(was, conns, key);
    PackParts(OnlineCount(conns, key), Count(conns, key));
    JoinTotal(online, Total(was[key]) - 1);
    assert !CountOk(counts, conns, key);
  }

  lemma JoinTotal(c2: int, c1: int)
    requires 0 <= c1 < LIMIT
    ensures Total(Join(c2, c1)) == c1
  {
  }

  /** Behind the limit it is wrong: with 65536 online connections the low half of the count is 0, so the next one,
      if it is not online, is told as a new user's, and the route server takes the user for not online. */
  lemma PastTheLimit(v: View, conns: multiset<Conn>, key: Key)
    requires key.UserKey? && Count(conns, key) == OnlineCount(conns, key) == LIMIT - 1 && Shows(v, conns)
    ensures var full := Added(Pack(LIMIT - 1, LIMIT - 1), true);
      var first, second := SubscribeEvents(key, true, LIMIT - 1, LIMIT - 1),
                           SubscribeEvents(key, false, Total(full), Online(full));
      && first == [] && second == [Set(key, false)]
      && Shows(ApplyAll(v, first), conns + multiset{Conn(key, true)})
      && !Shows(ApplyAll(v, first + second), conns + multiset{Conn(key, true)} + multiset{Conn(key, false)})
  {
    hide ApplyAll, Shows;
    PackParts(LIMIT - 1, LIMIT - 1);
    SubscribeShows(v, conns, Conn(key, true));
    assert [] + [Set(key, false)] == [Set(key, false)];
    ApplyFew(v, Set(key, false));
    NotOnline(Apply(v, Set(key, false)), conns + multiset{Conn(key, true)} + multiset{Conn(key, false)}, key);
  }

  lemma NotOnline(v: View, conns: multiset<Conn>, key: Key)
    requires key in v && !v[key] && OnlineCount(conns, key) > 0
    ensures !Shows(v, conns)
  {
  }

  /** What `Subscribe` tells the route server, from the counts before it. */
  function SubscribeEvents(key: Key, online: bool, total: int, onlineCount: int): (r: seq<Event>) {
    if total == 0 then [Set(key, online)]
    else if onlineCount == 0 && online then [Set(key, true)]
    else []
  }

  /** What `Unsubscribe` tells it. */
  function UnsubscribeEvents(key: Key, online: bool, total: int, onlineCount: int): (r: seq<Event>) {
    if total == 1 then [Clear(key)]
    else if total > 1 && onlineCount == 1 && online then [Set(key, false)]
    else []
  }

  lemma {:induction false} ApplyAllConcat(v: View, front: seq<Event>, back: seq<Event>)
    ensures ApplyAll(v, front + back) == ApplyAll(ApplyAll(v, front), back)
    decreases back
  {
    hide Apply;
    if back == [] {
      assert front + back == front;
    } else {
      var n, all := |back| - 1, front + back;
      assert all[..|all| - 1] == front + back[..n] && all[|all| - 1] == back[n];
      ApplyAllConcat(v, front, back[..n]);
    }
  }

  lemma ApplyFew(v: View, e: Event)
    ensures ApplyAll(v, []) == v && ApplyAll(v, [e]) == Apply(v, e)
  {
    assert [e][..0] == [];
    assert ApplyAll(v, [e][..0]) == v;
  }

  /** The events keep the route server's view equal to what the connections amount to. */
  lemma SubscribeShows(v: View, conns: multiset<Conn>, c: Conn)
    requires Shows(v, conns)
    ensures Shows(ApplyAll(v, SubscribeEvents(c.key, c.online, Count(conns, c.key), OnlineCount(conns, c.key))),
                  conns + multiset{c})
  {
    var next := conns + multiset{c};
    ApplyFew(v, Set(c.key, c.online));
    forall key | key != c.key
      ensures Count(next, key) == Count(conns, key) && OnlineCount(next, key) == OnlineCount(conns, key)
    {
    }
  }

  lemma UnsubscribeShows(v: View, conns: multiset<Conn>, c: Conn)
    requires Shows(v, conns) && c in conns
    ensures Shows(ApplyAll(v, UnsubscribeEvents(c.key, c.online, Count(conns, c.key), OnlineCount(conns, c.key))),
                  conns - multiset{c})
  {
    var next := conns - multiset{c};
    ApplyFew(v, Clear(c.key));
    ApplyFew(v, Set(c.key, false));
    forall key | key != c.key
      ensures Count(next, key) == Count(conns, key) && OnlineCount(next, key) == OnlineCount(conns, key)
    {
    }
  }

  /** Something is told exactly when the view changes. */
  lemma TellsChange(v: View, conns: multiset<Conn>, key: Key, online: bool)
    requires Shows(v, conns)
    ensures var es := SubscribeEvents(key, online, Count(conns, key), OnlineCount(conns, key));
      |es| <= 1 && (es == [] <==> ApplyAll(v, es) == v)
    ensures var es := UnsubscribeEvents(key, online, Count(conns, key), OnlineCount(conns, key));
      |es| <= 1 && (es == [] <==> ApplyAll(v, es) == v)
  {
    ApplyFew(v, Set(key, online));
    ApplyFew(v, Set(key, false));
    ApplyFew(v, Clear(key));
  }

  // ---------- reconnecting ----------

  /** The last event about a key. */
  function LastAbout(es: seq<Event>, key: Key): (r: seq<Event>) {
    if es == [] then [] else if es[|es| - 1].key == key then [es[|es| - 1]] else LastAbout(es[..|es| - 1], key)
  }

  /** Only the last event about a key counts. */
  lemma {:induction false} LastCounts(v: View, es: seq<Event>, key: Key)
    ensures var r, last := ApplyAll(v, es), LastAbout(es, key);
      if last == [] then (key in r <==> key in v) && (key in v ==> r[key] == v[key])
      else (key in r <==> last[0].Set?) && (key in r ==> r[key] == last[0].online)
  {
    if es != [] { LastCounts(v, es[..|es| - 1], key); }
  }

  lemma {:induction false} LastOfSuffix(es: seq<Event>, j: nat, key: Key)
    requires j <= |es|
    ensures LastAbout(es[j..], key) == [] || LastAbout(es[j..], key) == LastAbout(es, key)
    decreases |es|
  {
    if j < |es| {
      var n := |es| - 1;
      assert es[j..][..|es[j..]| - 1] == es[..n][j..] && es[j..][|es[j..]| - 1] == es[n];
      LastOfSuffix(es[..n], j, key);
    }
  }

  /** Hearing a suffix of the events again changes nothing. */
  lemma RepeatSuffix(v: View, es: seq<Event>, j: nat)
    requires j <= |es|
    ensures ApplyAll(ApplyAll(v, es), es[j..]) == ApplyAll(v, es)
  {
    var once := ApplyAll(v, es);
    var twice := ApplyAll(once, es[j..]);
    forall key ensures (key in once <==> key in twice) && (key in once ==> once[key] == twice[key]) {
      LastCounts(v, es, key);
      LastCounts(once, es[j..], key);
      LastOfSuffix(es, j, key);
    }
    assert once.Keys == twice.Keys;
  }

  lemma {:induction false} LastOfConcat(a: seq<Event>, b: seq<Event>, key: Key)
    ensures LastAbout(a + b, key) == if LastAbout(b, key) == [] then LastAbout(a, key) else LastAbout(b, key)
    decreases b
  {
    if b == [] {
      assert a + b == a;
    } else {
      var n, all := |b| - 1, a + b;
      assert all[..|all| - 1] == a + b[..n] && all[|all| - 1] == b[n];
      LastOfConcat(a, b[..n], key);
    }
  }

  lemma {:induction false} LastOfOthers(es: seq<Event>, key: Key)
    requires forall e :: e in es ==> e.key != key
    ensures LastAbout(es, key) == []
  {
    if es != [] {
      assert es[|es| - 1] in es;
      LastOfOthers(es[..|es| - 1], key);
    }
  }

  /** The users, or the rooms, of a view. */
  function Sort(v: View, users: bool): (r: View) { map key | key in v && key.UserKey? == users :: v[key] }

  /** A snapshot of the users, or of the rooms, at some time. */
  predicate IsSnapshot(snapshot: seq<Event>, v: View, users: bool) {
    ApplyAll(map[], snapshot) == Sort(v, users) && forall e :: e in snapshot ==> e.key.UserKey? == users
  }

  /** After a reconnect, a snapshot of the users at one time and one of the rooms at another, followed by every
      event from some earlier time on, give the same view as all events in order: stale messages still queued at
      the snapshots do no harm. */
  lemma ReconnectConverges(users: seq<Event>, rooms: seq<Event>, es: seq<Event>, t: nat, u: nat, j: nat)
    requires j <= t <= |es| && j <= u <= |es|
    requires IsSnapshot(users, ApplyAll(map[], es[..t]), true)
    requires IsSnapshot(rooms, ApplyAll(map[], es[..u]), false)
    ensures ApplyAll(map[], users + rooms + es[j..]) == ApplyAll(map[], es)
  {
    hide ApplyAll;
    var got, want := ApplyAll(map[], users + rooms + es[j..]), ApplyAll(map[], es);
    forall key ensures (key in got <==> key in want) && (key in got ==> got[key] == want[key]) {
      KeyConverges(users, rooms, es, t, u, j, key);
    }
    assert got.Keys == want.Keys;
  }

  /** Key by key: its last event is among the repeated ones, or in its snapshot. */
  lemma KeyConverges(users: seq<Event>, rooms: seq<Event>, es: seq<Event>, t: nat, u: nat, j: nat, key: Key)
    requires j <= t <= |es| && j <= u <= |es|
    requires IsSnapshot(users, ApplyAll(map[], es[..t]), true)
    requires IsSnapshot(rooms, ApplyAll(map[], es[..u]), false)
    ensures var got, want := ApplyAll(map[], users + rooms + es[j..]), ApplyAll(map[], es);
      (key in got <==> key in want) && (key in got ==> got[key] == want[key])
  {
    hide ApplyAll, LastAbout;
    LastCounts(map[], users + rooms + es[j..], key);
    LastCounts(map[], es, key);
    LastOfConcat(users + rooms, es[j..], key);
    LastOfConcat(users, rooms, key);
    LastOfSuffix(es, j, key);
    if key.UserKey? { LastOfOthers(rooms, key); } else { LastOfOthers(users, key); }
    var (snapshot, at) := if key.UserKey? then (users, t) else (rooms, u);
    LastCounts(map[], snapshot, key);
    LastCounts(map[], es[..at], key);
    assert es == es[..at] + es[at..] && es[at..] == es[j..][at - j..];
    LastOfConcat(es[..at], es[at..], key);
    LastOfSuffix(es[j..], at - j, key);
  }

  // ---------- the im side ----------

  class Channel {
    /** Connection counts, packed for users and plain for rooms. */
    var counts: map<Key, int>
    /** Everything written to the channel's queue so far, in order. */
    var wt: seq<Event>
    ghost var conns: multiset<Conn>

    /** The counts are right, and the events told so far give the view the connections amount to. */
    ghost predicate Valid()
      reads this
    {
      Counts(counts, conns) && Shows(ApplyAll(map[], wt), conns)
    }

    constructor ()
      ensures Valid() && conns == multiset{} && wt == []
    {
      counts, wt, conns := map[], [], multiset{};
    }

    /** `AddSubscribe`: returns the counts before. */
    method AddSubscribe(appid: int, uid: int, online: bool) returns (total: int, onlineCount: int)
      requires Counts(counts, conns)
      modifies `counts, `conns
      ensures var key := UserKey(appid, uid);
        && total == Count(old(conns), key) && onlineCount == OnlineCount(old(conns), key)
        && conns == old(conns) + multiset{Conn(key, online)} && (Counts(counts, conns) <==> total + 1 < LIMIT)
    {
      var key := UserKey(appid, uid);
      hide Counts;
      assert CountOk(counts, conns, key) by { CountAt(counts, conns, key); }
      var count := if key in counts then counts[key] else 0;
      PackParts(OnlineCount(conns, key), Count(conns, key));
      var c1, c2 := Total(count), Online(count);
      if online {
        c2 := c2 + 1;
      }
      c1 := c1 + 1;
      counts := counts[key := Join(c2, c1)];
      conns := conns + multiset{Conn(key, online)};
      if Total(count) + 1 < LIMIT {
        CountsChange(old(counts), old(conns), counts, conns, Conn(key, online));
      } else {
        TooMany(counts, conns, key);
      }
      return Total(count), Online(count);
    }

    /** `RemoveSubscribe`: of a user without connections it removes nothing. The counts stay right exactly unless the
        user has connections but none of this kind. */
    method RemoveSubscribe(appid: int, uid: int, online: bool) returns (total: int, onlineCount: int)
      requires Counts(counts, conns)
      modifies `counts, `conns
      ensures var key := UserKey(appid, uid);
        && total == Count(old(conns), key) && onlineCount == OnlineCount(old(conns), key)
        && conns == old(conns) - multiset{Conn(key, online)}
        && (Counts(counts, conns) <==> total == 0 || Conn(key, online) in old(conns))
    {
      var key := UserKey(appid, uid);
      hide Counts;
      assert CountOk(counts, conns, key) by { CountAt(counts, conns, key); }
      if key !in counts {
        assert conns - multiset{Conn(key, online)} == conns;
        return 0, 0;
      }
      var count := counts[key];
      PackParts(OnlineCount(conns, key), Count(conns, key));
      var c1, c2 := Total(count), Online(count);
      if online {
        c2 := c2 - 1;
      }
      c1 := c1 - 1;
      if c1 > 0 {
        counts := counts[key := Join(c2, c1)];
      } else {
        counts := counts - {key};
      }
      conns := conns - multiset{Conn(key, online)};
      if Conn(key, online) in old(conns) {
        CountsChange(old(counts), old(conns), counts, conns, Conn(key, online));
      } else {
        assert conns == old(conns);
        WrongKind(old(counts), old(conns), counts, key, c2);
      }
      return Total(count), Online(count);
    }

    /** `Subscribe`: what the route server is told stays right; the counts do up to 65535 connections of a user. */
    method Subscribe(appid: int, uid: int, online: bool)
      requires Valid()
      modifies this
      ensures conns == old(conns) + multiset{Conn(UserKey(appid, uid), online)}
      ensures old(wt) <= wt && Shows(ApplyAll(map[], wt), conns)
      ensures |wt| <= |old(wt)| + 1 && (wt == old(wt) <==> ApplyAll(map[], wt) == ApplyAll(map[], old(wt)))
      ensures Valid() <==> Count(old(conns), UserKey(appid, uid)) + 1 < LIMIT
    {
      var key := UserKey(appid, uid);
      hide Counts, Shows, ApplyAll, Apply;
      ghost var was := conns;
      var count, onlineCount := AddSubscribe(appid, uid, online);
      SubscribeShows(ApplyAll(map[], wt), was, Conn(key, online));
      TellsChange(ApplyAll(map[], wt), was, key, online);
      ApplyAllConcat(map[], wt, SubscribeEvents(key, online, count, onlineCount));
      assert wt + [] == wt;
      if count == 0 {
        wt := wt + [Set(key, online)];
      } else if onlineCount == 0 && online {
        wt := wt + [Set(key, true)];
      }
    }

    /** `Unsubscribe`: all stays right exactly unless the user has connections but none of this kind. */
    method Unsubscribe(appid: int, uid: int, online: bool)
      requires Valid()
      modifies this
      ensures conns == old(conns) - multiset{Conn(UserKey(appid, uid), online)} && old(wt) <= wt
      ensures |wt| <= |old(wt)| + 1 && (wt == old(wt) <==> ApplyAll(map[], wt) == ApplyAll(map[], old(wt)))
      ensures var key := UserKey(appid, uid);
        Valid() <==> Count(old(conns), key) == 0 || Conn(key, online) in old(conns)
    {
      var key := UserKey(appid, uid);
      hide Counts, Shows, ApplyAll, Apply;
      ghost var was := conns;
      var count, onlineCount := RemoveSubscribe(appid, uid, online);
      if Conn(key, online) in was {
        UnsubscribeShows(ApplyAll(map[], wt), was, Conn(key, online));
      } else {
        assert conns == was;
      }
      TellsChange(ApplyAll(map[], wt), was, key, online);
      ApplyAllConcat(map[], wt, UnsubscribeEvents(key, online, count, onlineCount));
      assert wt + [] == wt;
      if count == 1 {
        wt := wt + [Clear(key)];
      } else if count > 1 && onlineCount == 1 && online {
        wt := wt + [Set(key, false)];
      }
    }

    /** `SubscribeRoom`, with the count it keeps in `AddSubscribeRoom`. */
    method SubscribeRoom(appid: int, roomId: int)
      requires Valid()
      modifies this
      ensures Valid() && conns == old(conns) + multiset{Conn(RoomKey(appid, roomId), true)}
      ensures old(wt) <= wt
      ensures |wt| <= |old(wt)| + 1 && (wt == old(wt) <==> ApplyAll(map[], wt) == ApplyAll(map[], old(wt)))
    {
      var key := RoomKey(appid, roomId);
      hide Counts, Shows, ApplyAll, Apply;
      CountAt(counts, conns, key);
      var count := if key in counts then counts[key] else 0;
      SubscribeShows(ApplyAll(map[], wt), conns, Conn(key, true));
      TellsChange(ApplyAll(map[], wt), conns, key, true);
      ApplyAllConcat(map[], wt, SubscribeEvents(key, true, count, count));
      assert wt + [] == wt;
      counts := counts[key := count + 1];
      conns := conns + multiset{Conn(key, true)};
      CountsChange(old(counts), old(conns), counts, conns, Conn(key, true));
      if count == 0 {
        wt := wt + [Set(key, true)];
      }
    }

    /** `UnsubscribeRoom`, with the count it keeps in `RemoveSubscribeRoom`. */
    method UnsubscribeRoom(appid: int, roomId: int)
      requires Valid()
      modifies this
      ensures Valid() && conns == old(conns) - multiset{Conn(RoomKey(appid, roomId), true)}
      ensures old(wt) <= wt
      ensures |wt| <= |old(wt)| + 1 && (wt == old(wt) <==> ApplyAll(map[], wt) == ApplyAll(map[], old(wt)))
    {
      var key := RoomKey(appid, roomId);
      hide Counts, Shows, ApplyAll, Apply;
      CountAt(counts, conns, key);
      if key !in counts {
        assert conns - multiset{Conn(key, true)} == conns;
        return;
      }
      var count := counts[key];
      UnsubscribeShows(ApplyAll(map[], wt), conns, Conn(key, true));
      TellsChange(ApplyAll(map[], wt), conns, key, true);
      ApplyAllConcat(map[], wt, UnsubscribeEvents(key, true, count, count));
      assert wt + [] == wt;
      if count > 1 {
        counts := counts[key := count - 1];
      } else {
        counts := counts - {key};
      }
      conns := conns - multiset{Conn(key, true)};
      CountsChange(old(counts), old(conns), counts, conns, Conn(key, true));
      if count == 1 {
        wt := wt + [Clear(key)];
      }
    }

    /** `ReSubscribe`: what a new connection is told of the users. */
    method ReSubscribe() returns (snapshot: seq<Event>)
      requires Valid()
      ensures IsSnapshot(snapshot, ApplyAll(map[], wt), true)
    {
      snapshot := Snapshot(true);
    }

    /** `ReSubscribeRoom`: what it is told of the rooms, some time later. */
    method ReSubscribeRoom() returns (snapshot: seq<Event>)
      requires Valid()
      ensures IsSnapshot(snapshot, ApplyAll(map[], wt), false)
    {
      snapshot := Snapshot(false);
    }

    /** The loop over the counts, in map order. */
    method Snapshot(users: bool) returns (snapshot: seq<Event>)
      requires Valid()
      ensures IsSnapshot(snapshot, ApplyAll(map[], wt), users)
    {
      hide Counts, Shows, ApplyAll, Online;
      snapshot := [];
      var todo: set<Key> := set key | key in counts && key.UserKey? == users;
      ghost var all, view := todo, ApplyAll(map[], wt);
      ApplyFew(map[], Clear(UserKey(0, 0)));
      while todo != {}
        invariant todo <= all && forall e :: e in snapshot ==> e.key in all
        invariant ApplyAll(map[], snapshot) == map key | key in all - todo && key in view :: view[key]
        decreases |todo|
      {
        PickKey(todo);
        var key :| key in todo;
        CountShows(counts, conns, view, key);
        var online := key.RoomKey? || Online(counts[key]) > 0;
        SnapshotStep(view, snapshot, all, todo, key);
        todo := todo - {key};
        snapshot := snapshot + [Set(key, online)];
      }
      forall key ensures key in view <==> key in counts { CountPresent(counts, conns, view, key); }
    }
  }

  lemma SnapshotStep(view: View, snapshot: seq<Event>, all: set<Key>, todo: set<Key>, key: Key)
    requires todo <= all && key in todo && key in view
    requires ApplyAll(map[], snapshot) == map key | key in all - todo && key in view :: view[key]
    ensures ApplyAll(map[], snapshot + [Set(key, view[key])])
      == map k | k in all - (todo - {key}) && k in view :: view[k]
  {
    hide ApplyAll;
    ApplyAllConcat(map[], snapshot, [Set(key, view[key])]);
    ApplyFew(ApplyAll(map[], snapshot), Set(key, view[key]));
  }

  lemma PickKey(s: set<Key>)
    requires s != {}
    ensures exists k :: k in s
  {
    assert (forall k :: k !in s) ==> s == {};
  }

  lemma CountPresent(counts: map<Key, int>, conns: multiset<Conn>, view: View, key: Key)
    requires Counts(counts, conns) && Shows(view, conns)
    ensures key in view <==> key in counts
  {
    CountAt(counts, conns, key);
  }

  /** The view says of a counted key what its count says. */
  lemma CountShows(counts: map<Key, int>, conns: multiset<Conn>, view: View, key: Key)
    requires Counts(counts, conns) && Shows(view, conns) && key in counts
    ensures key in view && (view[key] <==> key.RoomKey? || Online(counts[key]) > 0)
  {
    CountAt(counts, conns, key);
    if key.UserKey? { PackParts(OnlineCount(conns, key), Count(conns, key)); }
  }

  lemma CountAt(counts: map<Key, int>, conns: multiset<Conn>, key: Key)
    requires Counts(counts, conns)
    ensures CountOk(counts, conns, key)
  {
  }

  // ---------- the imr side ----------

  /** What the route server keeps for one access server. */
  class Route {
    var uids: map<Key, bool>
    var roomIds: set<Key>

    ghost predicate Valid()
      reads this
    {
      (forall key :: key in uids ==> key.UserKey?) && (forall key :: key in roomIds ==> key.RoomKey?)
    }

    ghost function Known(): (r: View)
      reads this
    {
      map key | key in uids.Keys + roomIds :: if key in uids then uids[key] else true
    }

    constructor ()
      ensures Valid() && Known() == map[]
    {
      uids, roomIds := map[], {};
    }

    /** `HandleSubscribe` and `HandleSubscribeRoom`. */
    method HandleSubscribe(key: Key, online: bool)
      requires Valid() && (key.RoomKey? ==> online)
      modifies this
      ensures Valid() && Known() == Apply(old(Known()), Set(key, online))
    {
      if key.UserKey? {
        uids := uids[key := online];
      } else {
        roomIds := roomIds + {key};
      }
    }

    /** `HandleUnsubscribe` and `HandleUnsubscribeRoom`. */
    method HandleUnsubscribe(key: Key)
      requires Valid()
      modifies this
      ensures Valid() && Known() == Apply(old(Known()), Clear(key))
    {
      if key.UserKey? {
        uids := uids - {key};
      } else {
        roomIds := roomIds - {key};
      }
    }

    function IsUserOnline(appid: int, uid: int): (r: bool)
      reads this
      ensures r <==> UserKey(appid, uid) in Known() && UserKey(appid, uid) in uids && Known()[UserKey(appid, uid)]
    {
      UserKey(appid, uid) in uids && uids[UserKey(appid, uid)]
    }
  }
}
