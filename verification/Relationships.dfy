/** The cache of relationships between users, as in im/relationship.go and im/relationship_pool.go: one item for
    both users of a pair, kept under the key with the smaller user first. */
module Relationships {
  import opened Bytes

  const EXPIRE_DURATION := 60 * 60

  /** Four bits: my friend, your friend, in my blacklist, in your blacklist. */
  type Relationship = x: int | 0 <= x < 16

  /** `NewRelationship`; each bit is set at most once, so or-ing it in is adding it. */
  function NewRelationship(myFriend: bool, yourFriend: bool, myBlack: bool, yourBlack: bool): (rs: Relationship)
    ensures IsMyFriend(rs) == myFriend && IsYourFriend(rs) == yourFriend
    ensures IsInMyBlacklist(rs) == myBlack && IsInYourBlacklist(rs) == yourBlack
  {
    (if myFriend then 1 else 0) + (if yourFriend then 2 else 0) +
    (if myBlack then 4 else 0) + (if yourBlack then 8 else 0)
  }

  predicate IsMyFriend(rs: Relationship) { rs % 2 == 1 }
  predicate IsYourFriend(rs: Relationship) { rs / 2 % 2 == 1 }
  predicate IsInMyBlacklist(rs: Relationship) { rs / 4 % 2 == 1 }
  predicate IsInYourBlacklist(rs: Relationship) { rs / 8 % 2 == 1 }

  /** The four bits are all there is to a relationship. */
  lemma FourBits(rs: Relationship)
    ensures NewRelationship(IsMyFriend(rs), IsYourFriend(rs), IsInMyBlacklist(rs), IsInYourBlacklist(rs)) == rs
  {
    assert rs / 2 == rs / 2 % 2 + 2 * (rs / 4);
    assert rs / 4 == rs / 4 % 2 + 2 * (rs / 8);
    assert rs / 8 == rs / 8 % 2;
  }

  /** `reverse`: the same pair, seen by the other user. */
  function Reverse(rs: Relationship): (r: Relationship) {
    NewRelationship(IsYourFriend(rs), IsMyFriend(rs), IsInYourBlacklist(rs), IsInMyBlacklist(rs))
  }

  lemma ReverseTwice(rs: Relationship)
    ensures Reverse(Reverse(rs)) == rs
    ensures IsMyFriend(Reverse(rs)) == IsYourFriend(rs) && IsInMyBlacklist(Reverse(rs)) == IsInYourBlacklist(rs)
    ensures IsYourFriend(Reverse(rs)) == IsMyFriend(rs) && IsInYourBlacklist(Reverse(rs)) == IsInMyBlacklist(rs)
  {
    hide NewRelationship, IsMyFriend, IsYourFriend, IsInMyBlacklist, IsInYourBlacklist;
    FourBits(rs);
  }

  datatype Item = Item(rs: Relationship, ts: int)

  /** The cache key of a pair. */
  datatype Key = Key(appid: Int64, low: Int64, high: Int64)

  /** What one user holds of another: as a friend, or in the blacklist. */
  datatype Edge = Friend(appid: Int64, of: Int64, whom: Int64) | Black(appid: Int64, of: Int64, whom: Int64)

  function KeyOf(appid: Int64, a: Int64, b: Int64): (r: Key) { if a > b then Key(appid, b, a) else Key(appid, a, b) }

  function EdgeKey(e: Edge): (r: Key) { KeyOf(e.appid, e.of, e.whom) }

  /** The bit of a pair's relationship that stands for the edge. */
  predicate Bit(rs: Relationship, e: Edge) {
    if e.Friend? then (if e.of > e.whom then IsYourFriend(rs) else IsMyFriend(rs))
    else (if e.of > e.whom then IsInYourBlacklist(rs) else IsInMyBlacklist(rs))
  }

  /** What the cache says of an edge between two users. */
  function Lookup(items: map<Key, Item>, e: Edge): (r: Option<bool>) {
    if EdgeKey(e) in items then Some(Bit(items[EdgeKey(e)].rs, e)) else None
  }

  /** The edges the cache holds. */
  ghost function Edges(items: map<Key, Item>): (r: iset<Edge>) { iset e: Edge | Lookup(items, e) == Some(true) }

  /** What a relationship tells the first of two users, edge by edge. */
  ghost predicate Tells(rs: Relationship, appid: Int64, uid: Int64, friendUid: Int64, edges: iset<Edge>) {
    && (IsMyFriend(rs) <==> Friend(appid, uid, friendUid) in edges)
    && (IsYourFriend(rs) <==> Friend(appid, friendUid, uid) in edges)
    && (IsInMyBlacklist(rs) <==> Black(appid, uid, friendUid) in edges)
    && (IsInYourBlacklist(rs) <==> Black(appid, friendUid, uid) in edges)
  }

  /** After setting one edge: that edge alone has changed, and only if its pair was cached. */
  ghost predicate OnlyEdge(was: map<Key, Item>, items: map<Key, Item>, edge: Edge, value: bool) {
    && items.Keys == was.Keys
    && forall e: Edge :: e.of != e.whom ==>
         Lookup(items, e) == if e == edge && Lookup(was, e).Some? then Some(value) else Lookup(was, e)
  }

  /** A cached relationship, turned for the user who asks, tells that user the edges. */
  lemma PairEdges(items: map<Key, Item>, appid: Int64, uid: Int64, friendUid: Int64)
    requires KeyOf(appid, uid, friendUid) in items
    ensures var rs := items[KeyOf(appid, uid, friendUid)].rs;
      uid != friendUid ==> Tells(if uid > friendUid then Reverse(rs) else rs, appid, uid, friendUid, Edges(items))
  {
    hide NewRelationship, IsMyFriend, IsYourFriend, IsInMyBlacklist, IsInYourBlacklist;
  }

  predicate IsStale(items: map<Key, Item>, k: Key, now: int) { k in items && now - items[k].ts > EXPIRE_DURATION }

  lemma PickKey(s: set<Key>)
    requires s != {}
    ensures exists k :: k in s
  {
    assert (forall k :: k !in s) ==> s == {};
  }

  lemma CountKept(items: map<Key, Item>, expired: set<Key>)
    requires expired <= items.Keys
    ensures |items - expired| == |items| - |expired|
  {
    assert (items - expired).Keys == items.Keys - expired;
    assert items.Keys == (items.Keys - expired) + expired;
  }

  class RelationshipPool {
    var items: map<Key, Item>
    var itemCount: int

    ghost predicate Valid()
      reads this
    {
      itemCount == |items|
    }

    constructor ()
      ensures Valid() && items == map[]
    {
      items, itemCount := map[], 0;
    }

    /** `GetRelationship`: from the cache, or else from the database, whose answer for the ordered pair is
        `loaded`. Either way the caller learns the four edges as the cache has them afterwards. */
    method GetRelationship(appid: Int64, uid: Int64, friendUid: Int64, now: int, loaded: Option<Relationship>)
      returns (rs: Relationship)
      requires Valid()
      modifies this
      ensures Valid()
      ensures var key := KeyOf(appid, uid, friendUid);
        if key in old(items) || loaded.Some? then
          && items.Keys == old(items).Keys + {key}
          && items[key] == Item(if key in old(items) then old(items)[key].rs else loaded.value, now)
          && (forall k :: k in old(items) && k != key ==> items[k] == old(items)[k])
          && (uid != friendUid ==> Tells(rs, appid, uid, friendUid, Edges(items)))
        else rs == 0 && items == old(items)
    {
      hide NewRelationship, IsMyFriend, IsYourFriend, IsInMyBlacklist, IsInYourBlacklist;
      var reverse := false;
      var a, b := uid, friendUid;
      if a > b {
        reverse := true;
        a, b := b, a;
      }
      var key := Key(appid, a, b);
      if key in items {
        items := items[key := items[key].(ts := now)];
        rs := items[key].rs;
        PairEdges(items, appid, uid, friendUid);
        return if reverse then Reverse(rs) else rs;
      }
      if loaded.None? {
        return 0;
      }
      items := items[key := Item(loaded.value, now)];
      itemCount := itemCount + 1;
      rs := loaded.value;
      PairEdges(items, appid, uid, friendUid);
      return if reverse then Reverse(rs) else rs;
    }

    /** `SetMyFriend` */
    method SetMyFriend(appid: Int64, uid: Int64, friendUid: Int64, isMyFriend: bool)
      requires Valid()
      modifies this
      ensures Valid() && OnlyEdge(old(items), items, Friend(appid, uid, friendUid), isMyFriend)
      decreases if uid > friendUid then 1 else 0
    {
      hide NewRelationship, IsMyFriend, IsYourFriend, IsInMyBlacklist, IsInYourBlacklist;
      if uid > friendUid {
        SetYourFriend(appid, friendUid, uid, isMyFriend);
        return;
      }
      var key := Key(appid, uid, friendUid);
      if key !in items {
        return;
      }
      var rs := items[key].rs;
      rs := NewRelationship(isMyFriend, IsYourFriend(rs), IsInMyBlacklist(rs), IsInYourBlacklist(rs));
      items := items[key := items[key].(rs := rs)];
    }

    /** `SetYourFriend` */
    method SetYourFriend(appid: Int64, uid: Int64, friendUid: Int64, isYourFriend: bool)
      requires Valid()
      modifies this
      ensures Valid() && OnlyEdge(old(items), items, Friend(appid, friendUid, uid), isYourFriend)
      decreases if uid > friendUid then 1 else 0
    {
      hide NewRelationship, IsMyFriend, IsYourFriend, IsInMyBlacklist, IsInYourBlacklist;
      if uid > friendUid {
        SetMyFriend(appid, friendUid, uid, isYourFriend);
        return;
      }
      var key := Key(appid, uid, friendUid);
      if key !in items {
        return;
      }
      var rs := items[key].rs;
      rs := NewRelationship(IsMyFriend(rs), isYourFriend, IsInMyBlacklist(rs), IsInYourBlacklist(rs));
      items := items[key := items[key].(rs := rs)];
    }

    /** `SetInMyBlacklist` */
    method SetInMyBlacklist(appid: Int64, uid: Int64, friendUid: Int64, isInMyBlacklist: bool)
      requires Valid()
      modifies this
      ensures Valid() && OnlyEdge(old(items), items, Black(appid, uid, friendUid), isInMyBlacklist)
      decreases if uid > friendUid then 1 else 0
    {
      hide NewRelationship, IsMyFriend, IsYourFriend, IsInMyBlacklist, IsInYourBlacklist;
      if uid > friendUid {
        SetInYourBlacklist(appid, friendUid, uid, isInMyBlacklist);
        return;
      }
      var key := Key(appid, uid, friendUid);
      if key !in items {
        return;
      }
      var rs := items[key].rs;
      rs := NewRelationship(IsMyFriend(rs), IsYourFriend(rs), isInMyBlacklist, IsInYourBlacklist(rs));
      items := items[key := items[key].(rs := rs)];
    }

    /** `SetInYourBlacklist` */
    method SetInYourBlacklist(appid: Int64, uid: Int64, friendUid: Int64, isInYourBlacklist: bool)
      requires Valid()
      modifies this
      ensures Valid() && OnlyEdge(old(items), items, Black(appid, friendUid, uid), isInYourBlacklist)
      decreases if uid > friendUid then 1 else 0
    {
      hide NewRelationship, IsMyFriend, IsYourFriend, IsInMyBlacklist, IsInYourBlacklist;
      if uid > friendUid {
        SetInMyBlacklist(appid, friendUid, uid, isInYourBlacklist);
        return;
      }
      var key := Key(appid, uid, friendUid);
      if key !in items {
        return;
      }
      var rs := items[key].rs;
      rs := NewRelationship(IsMyFriend(rs), IsYourFriend(rs), IsInMyBlacklist(rs), isInYourBlacklist);
      items := items[key := items[key].(rs := rs)];
    }

    /** `Recycle`: drops the items not asked for within the hour. */
    method Recycle(now: int)
      requires Valid()
      modifies this
      ensures Valid() && items == map k | k in old(items) && !IsStale(old(items), k, now) :: old(items)[k]
      ensures forall k :: k in items <==> k in old(items) && now - old(items)[k].ts <= 3600
    {
      hide IsStale;
      var expired, count := {}, 0;
      var todo: set<Key> := items.Keys;
      ghost var seen: set<Key> := {};
      while todo != {}
        invariant todo !! seen && todo + seen == items.Keys && count == |seen|
        invariant expired <= seen && forall k :: k in seen ==> (k in expired <==> IsStale(items, k, now))
        invariant items == old(items) && itemCount == old(itemCount)
        decreases |todo|
      {
        PickKey(todo);
        var k :| k in todo;
        if now - items[k].ts > EXPIRE_DURATION {
          assert IsStale(items, k, now) by { StaleIff(items, k, now); }
          expired := expired + {k};
        } else {
          StaleIff(items, k, now);
        }
        count := count + 1;
        todo, seen := todo - {k}, seen + {k};
      }
      assert seen == items.Keys;
      CountKept(items, expired);
      forall k | k in items ensures IsStale(items, k, now) <==> now - items[k].ts > 3600 { StaleIff(items, k, now); }
      items := items - expired;
      itemCount := count - |expired|;
    }
  }

  lemma StaleIff(items: map<Key, Item>, k: Key, now: int)
    requires k in items
    ensures IsStale(items, k, now) <==> now - items[k].ts > EXPIRE_DURATION
  {
  }

  // ---------- agreement with the edges themselves ----------

  /** Everything cached about two different users agrees with the set of edges. */
  ghost predicate Agrees(items: map<Key, Item>, edges: iset<Edge>) {
    forall e: Edge :: e.of != e.whom && Lookup(items, e).Some? ==> Lookup(items, e).value == (e in edges)
  }

  /** An edge changes in the database and the event reaches the cache. */
  lemma EventKeepsAgreement(was: map<Key, Item>, items: map<Key, Item>, edges: iset<Edge>, edge: Edge, value: bool)
    requires Agrees(was, edges) && OnlyEdge(was, items, edge, value)
    ensures Agrees(items, if value then edges + iset{edge} else edges - iset{edge})
  {
    hide Lookup;
  }

  /** With a cache that agrees, and a database that answers for the pair, a user is told exactly the edges. */
  lemma LookupKeepsAgreement(was: map<Key, Item>, items: map<Key, Item>, edges: iset<Edge>, key: Key,
                             loaded: Relationship)
    requires Agrees(was, edges) && key.low <= key.high && key in items
    requires items.Keys == was.Keys + {key} && forall k :: k in was ==> items[k].rs == was[k].rs
    requires key !in was ==> items[key].rs == loaded
    requires Tells(loaded, key.appid, key.low, key.high, edges)
    ensures Agrees(items, edges)
  {
    forall e: Edge | e.of != e.whom && Lookup(items, e).Some? ensures Lookup(items, e).value == (e in edges) {
      if EdgeKey(e) in was { assert Lookup(was, e) == Lookup(items, e); }
    }
  }

  /** The other user is told the same, with the roles swapped. */
  lemma BothViews(items: map<Key, Item>, edges: iset<Edge>, appid: Int64, a: Int64, b: Int64)
    requires a != b && KeyOf(appid, a, b) in items && Agrees(items, edges)
    ensures var rs := items[KeyOf(appid, a, b)].rs;
      Tells(if a > b then Reverse(rs) else rs, appid, a, b, edges)
  {
    var rs := items[KeyOf(appid, a, b)].rs;
    forall e: Edge | e.appid == appid && ((e.of == a && e.whom == b) || (e.of == b && e.whom == a))
      ensures Bit(rs, e) <==> e in edges
    {
      assert Lookup(items, e) == Some(Bit(rs, e));
    }
    ReverseTwice(rs);
    assert Bit(rs, Friend(appid, a, b)) <==> Friend(appid, a, b) in edges;
    assert Bit(rs, Friend(appid, b, a)) <==> Friend(appid, b, a) in edges;
    assert Bit(rs, Black(appid, a, b)) <==> Black(appid, a, b) in edges;
    assert Bit(rs, Black(appid, b, a)) <==> Black(appid, b, a) in edges;
  }
}
