/** The least-recently-used cache of lru/lru.go, which the store keeps its block file handles in. */
module LruCaches {
  /** A block number and its file handle; of keys only equality matters. */
  datatype Pair = Pair(key: int, value: int)
  datatype Found = Hit(value: int) | Miss

  predicate DistinctKeys(s: seq<Pair>) {
    forall i, j :: 0 <= i < j < |s| ==> s[i].key != s[j].key
  }

  /** The pairs under other keys. */
  function Without(s: seq<Pair>, k: int): (r: seq<Pair>) {
    if s == [] then [] else (if s[0].key == k then [] else [s[0]]) + Without(s[1..], k)
  }

  function Take<T>(s: seq<T>, n: nat): (r: seq<T>) { if |s| <= n then s else s[..n] }

  /** What fits the cache; zero is no limit. */
  function Cut<T>(s: seq<T>, max: nat): (r: seq<T>) { if max == 0 then s else Take(s, max) }

  /** All pairs ever added, each key once with its newest value, most recent first. */
  function Recency(history: seq<Pair>): (r: seq<Pair>) {
    if history == [] then [] else
    var last := history[|history| - 1];
    [last] + Without(Recency(history[..|history| - 1]), last.key)
  }

  /** The cache after one addition. */
  function Added(s: seq<Pair>, p: Pair, max: nat): (r: seq<Pair>) {
    Cut([p] + Without(s, p.key), max)
  }

  function AddedAll(history: seq<Pair>, max: nat): (r: seq<Pair>) {
    if history == [] then [] else Added(AddedAll(history[..|history| - 1], max), history[|history| - 1], max)
  }

  lemma {:induction false} WithoutAbsent(s: seq<Pair>, k: int)
    requires forall i :: 0 <= i < |s| ==> s[i].key != k
    ensures Without(s, k) == s
  {
    if s != [] { WithoutAbsent(s[1..], k); }
  }

  lemma {:induction false} WithoutAt(s: seq<Pair>, i: nat)
    requires DistinctKeys(s) && i < |s|
    ensures Without(s, s[i].key) == s[..i] + s[i + 1..]
  {
    if i == 0 {
      WithoutAbsent(s[1..], s[0].key);
    } else {
      WithoutAt(s[1..], i - 1);
      assert s[1..][..i - 1] == s[..i][1..] && s[1..][i..] == s[i + 1..];
    }
  }

  lemma {:induction false} WithoutIn(s: seq<Pair>, k: int)
    ensures forall p :: p in Without(s, k) <==> p in s && p.key != k
    ensures DistinctKeys(s) ==> DistinctKeys(Without(s, k))
  {
    if s != [] {
      WithoutIn(s[1..], k);
      var rest := Without(s[1..], k);
      if DistinctKeys(s) {
        assert DistinctKeys(s[1..]);
        forall i | 0 <= i < |rest| ensures rest[i].key != s[0].key {
          assert rest[i] in rest;
          var j :| 0 <= j < |s[1..]| && s[1..][j] == rest[i];
          assert s[j + 1] == rest[i];
        }
      }
    }
  }

  lemma {:induction false} RecencyDistinct(history: seq<Pair>)
    ensures DistinctKeys(Recency(history))
  {
    if history != [] {
      var init, last := history[..|history| - 1], history[|history| - 1];
      RecencyDistinct(init);
      WithoutIn(Recency(init), last.key);
      var rest := Without(Recency(init), last.key);
      forall i | 0 <= i < |rest| ensures rest[i].key != last.key {
        assert rest[i] in Without(Recency(init), last.key);
      }
    }
  }

  /** Forgetting the end before removing a key makes no difference to what is kept. */
  lemma {:induction false} WithoutTake(s: seq<Pair>, k: int, n: nat)
    requires DistinctKeys(s)
    ensures Take(Without(Take(s, n + 1), k), n) == Take(Without(s, k), n)
  {
    if s != [] && n > 0 {
      var first, tail := s[0], s[1..];
      assert s == [first] + tail;
      TakeFirst(first, tail, n + 1);
      WithoutFirst(first, tail, k);
      WithoutFirst(first, Take(tail, n), k);
      hide Without;
      if first.key == k {
        WithoutAbsent(tail, k);
        WithoutAbsent(Take(tail, n), k);
      } else {
        WithoutTake(tail, k, n - 1);
        TakeFirst(first, Without(tail, k), n);
        TakeFirst(first, Without(Take(tail, n), k), n);
      }
    }
  }

  /** The cache is the recency order of everything added, cut to its size: a bounded cache holds what an
      unbounded one would have at the front. */
  lemma {:induction false} CacheIsRecency(history: seq<Pair>, max: nat)
    ensures AddedAll(history, max) == Cut(Recency(history), max)
  {
    if history != [] {
      var init, last := history[..|history| - 1], history[|history| - 1];
      CacheIsRecency(init, max);
      if max > 0 {
        RecencyDistinct(init);
        WithoutTake(Recency(init), last.key, max - 1);
        TakeFirst(last, Without(Take(Recency(init), max), last.key), max);
        TakeFirst(last, Without(Recency(init), last.key), max);
      }
    }
  }

  // ---------- the store's use: look up, and add on a miss ----------

  /** The value held under a key. */
  function Held(s: seq<Pair>, k: int): (r: Found)
    ensures r.Hit? ==> Pair(k, r.value) in s
    ensures r.Miss? ==> forall i :: 0 <= i < |s| ==> s[i].key != k
  {
    if s == [] then Miss else if s[0].key == k then Hit(s[0].value) else Held(s[1..], k)
  }

  /** One request for a block's file, and what opening it would give. */
  datatype Access = Access(block: int, file: Found)

  /** The cache after a request. */
  function Got(s: seq<Pair>, a: Access, max: nat): (r: seq<Pair>) {
    match Held(s, a.block)
    case Hit(v) => [Pair(a.block, v)] + Without(s, a.block)
    case Miss => if a.file.Hit? then Added(s, Pair(a.block, a.file.value), max) else s
  }

  function GotAll(h: seq<Access>, max: nat): (r: seq<Pair>) {
    if h == [] then [] else Got(GotAll(h[..|h| - 1], max), h[|h| - 1], max)
  }

  /** The blocks of the requests that got a file, in order. */
  function Served(h: seq<Access>, max: nat): (r: seq<Pair>) {
    if h == [] then [] else
    var init, a := h[..|h| - 1], h[|h| - 1];
    Served(init, max) +
    if Held(GotAll(init, max), a.block).Hit? || a.file.Hit? then [Pair(a.block, 0)] else []
  }

  /** The keys alone. */
  function Keys(s: seq<Pair>): (r: seq<Pair>) { seq(|s|, i requires 0 <= i < |s| => Pair(s[i].key, 0)) }

  lemma {:induction false} KeysWithout(s: seq<Pair>, k: int)
    ensures Keys(Without(s, k)) == Without(Keys(s), k)
  {
    if s != [] {
      KeysWithout(s[1..], k);
      assert Keys(s)[1..] == Keys(s[1..]);
    }
  }

  lemma KeysAdded(s: seq<Pair>, p: Pair, max: nat)
    ensures Keys(Added(s, p, max)) == Added(Keys(s), Pair(p.key, 0), max)
  {
    KeysWithout(s, p.key);
  }

  lemma {:induction false} HeldNone(s: seq<Pair>, k: int)
    requires forall p :: p in s ==> p.key != k
    ensures Held(s, k) == Miss
  {
    if s != [] {
      assert s[0] in s;
      HeldNone(s[1..], k);
    }
  }

  lemma {:induction false} HeldAt(s: seq<Pair>, i: nat)
    requires DistinctKeys(s) && i < |s|
    ensures Held(s, s[i].key) == Hit(s[i].value)
  {
    if i > 0 { HeldAt(s[1..], i - 1); }
  }

  /** A request keeps the cache within its limit, and moves or adds its block as an addition would. */
  lemma GotKeys(s: seq<Pair>, a: Access, max: nat)
    requires DistinctKeys(s) && (max > 0 ==> |s| <= max)
    ensures var r := Got(s, a, max);
      && DistinctKeys(r) && (max > 0 ==> |r| <= max)
      && Keys(r) == if Held(s, a.block).Hit? || a.file.Hit? then Added(Keys(s), Pair(a.block, 0), max) else Keys(s)
  {
    hide Held, Without, DistinctKeys, Keys;
    match Held(s, a.block)
    case Hit(v) =>
      HitKeys(s, a.block, v, max);
    case Miss =>
      if a.file.Hit? {
        var p := Pair(a.block, a.file.value);
        AddedDistinct(s, p, max);
        KeysAdded(s, p, max);
      }
  }

  lemma AddedDistinct(s: seq<Pair>, p: Pair, max: nat)
    requires DistinctKeys(s)
    ensures DistinctKeys([p] + Without(s, p.key)) && DistinctKeys(Added(s, p, max))
  {
    var rest := Without(s, p.key);
    WithoutIn(s, p.key);
    forall i | 0 <= i < |rest| ensures rest[i].key != p.key { assert rest[i] in rest; }
  }

  lemma HitKeys(s: seq<Pair>, k: int, v: int, max: nat)
    requires DistinctKeys(s) && (max > 0 ==> |s| <= max) && Pair(k, v) in s
    ensures var r := [Pair(k, v)] + Without(s, k);
      DistinctKeys(r) && |r| == |s| && Keys(r) == Added(Keys(s), Pair(k, 0), max)
  {
    var i :| 0 <= i < |s| && s[i] == Pair(k, v);
    WithoutAt(s, i);
    AddedDistinct(s, Pair(k, v), max);
    KeysAdded(s, Pair(k, v), max);
  }

  /** After any requests the cache holds the blocks served, in the order of their last use, cut to its size. */
  lemma {:induction false} RequestsAreRecency(h: seq<Access>, max: nat)
    ensures DistinctKeys(GotAll(h, max)) && (max > 0 ==> |GotAll(h, max)| <= max)
    ensures Keys(GotAll(h, max)) == Cut(Recency(Served(h, max)), max)
  {
    CacheIsRecency(Served(h, max), max);
    if h != [] {
      var init, a := h[..|h| - 1], h[|h| - 1];
      RequestsAreRecency(init, max);
      CacheIsRecency(Served(init, max), max);
      GotKeys(GotAll(init, max), a, max);
      ServedStep(h, max);
    }
  }

  lemma ServedStep(h: seq<Access>, max: nat)
    requires h != []
    ensures var init, a := h[..|h| - 1], h[|h| - 1];
      AddedAll(Served(h, max), max)
        == if Held(GotAll(init, max), a.block).Hit? || a.file.Hit?
           then Added(AddedAll(Served(init, max), max), Pair(a.block, 0), max) else AddedAll(Served(init, max), max)
  {
    var init, a := h[..|h| - 1], h[|h| - 1];
    assert (Served(init, max) + [Pair(a.block, 0)])[..|Served(init, max)|] == Served(init, max);
    assert Served(init, max) + [] == Served(init, max);
  }

  lemma WithoutFirst(p: Pair, s: seq<Pair>, k: int)
    ensures Without([p] + s, k) == (if p.key == k then Without(s, k) else [p] + Without(s, k))
  {
    assert ([p] + s)[1..] == s;
  }

  lemma TakeFirst<T>(x: T, s: seq<T>, n: nat)
    requires n > 0
    ensures Take([x] + s, n) == [x] + Take(s, n - 1)
  {
  }

  /** A list element's value; the map and the list share it. */
  class Entry {
    const key: int
    var value: int

    constructor (k: int, v: int)
      ensures key == k && value == v
    {
      key, value := k, v;
    }
  }

  ghost function Pairs(es: seq<Entry>): (r: seq<Pair>)
    reads es
    ensures |r| == |es| && forall i :: 0 <= i < |es| ==> r[i] == Pair(es[i].key, es[i].value)
  {
    if es == [] then [] else [Pair(es[0].key, es[0].value)] + Pairs(es[1..])
  }

  ghost predicate Matches(es: seq<Entry>, cache: map<int, Entry>) {
    && OneEach(es)
    && (forall e :: e in es ==> e.key in cache && cache[e.key] == e)
    && (forall k :: k in cache ==> cache[k] in es && cache[k].key == k)
  }

  predicate OneEach(es: seq<Entry>) { forall i, j :: 0 <= i < j < |es| ==> es[i].key != es[j].key }

  lemma Dropped(es: seq<Entry>, i: nat)
    requires OneEach(es) && i < |es|
    ensures var rest := es[..i] + es[i + 1..];
      OneEach(rest) && forall e :: e in rest <==> e in es && e.key != es[i].key
  {
    var rest := es[..i] + es[i + 1..];
    forall j | 0 <= j < |rest| ensures rest[j] == es[if j < i then j else j + 1] {}
    forall e | e in es && e.key != es[i].key ensures e in rest {
      var j :| 0 <= j < |es| && es[j] == e;
      assert rest[if j < i then j else j - 1] == e;
    }
  }

  lemma MatchesDropped(es: seq<Entry>, cache: map<int, Entry>, i: nat)
    requires Matches(es, cache) && i < |es|
    ensures Matches(es[..i] + es[i + 1..], cache - {es[i].key})
    ensures Matches([es[i]] + (es[..i] + es[i + 1..]), cache)
  {
    Dropped(es, i);
    var rest, e := es[..i] + es[i + 1..], es[i];
    hide OneEach;
    assert e in es;
    MatchesAdded(rest, cache - {e.key}, e);
    assert cache == (cache - {e.key})[e.key := e];
  }

  lemma MatchesAdded(es: seq<Entry>, cache: map<int, Entry>, e: Entry)
    requires Matches(es, cache) && e.key !in cache
    ensures Matches([e] + es, cache[e.key := e])
  {
    var all := [e] + es;
    forall j | 0 < j < |all| ensures all[j] == es[j - 1] && all[j].key in cache { assert es[j - 1] in es; }
  }

  lemma PairsDropped(es: seq<Entry>, i: nat)
    requires i < |es| && OneEach(es)
    ensures var rest, ps := es[..i] + es[i + 1..], Pairs(es);
      && Pairs(rest) == ps[..i] + ps[i + 1..] && ps[..i] + ps[i + 1..] == Without(ps, es[i].key)
      && Pairs([es[i]] + rest) == [ps[i]] + Pairs(rest)
  {
    hide Pairs, Without, OneEach;
    PairsSplit(es, i);
    PairsFirst(es[i], es[..i] + es[i + 1..]);
    DistinctPairs(es);
    WithoutAt(Pairs(es), i);
  }

  lemma DistinctPairs(es: seq<Entry>)
    requires OneEach(es)
    ensures DistinctKeys(Pairs(es))
  {
    hide Pairs;
  }

  lemma PairsFirst(e: Entry, es: seq<Entry>)
    ensures Pairs([e] + es) == [Pair(e.key, e.value)] + Pairs(es)
  {
    hide Pairs;
  }

  lemma PairsSplit(es: seq<Entry>, i: nat)
    requires i < |es|
    ensures Pairs(es[..i] + es[i + 1..]) == Pairs(es)[..i] + Pairs(es)[i + 1..]
  {
    hide Pairs;
  }

  lemma OthersApart(es: seq<Entry>)
    requires OneEach(es)
    ensures forall i, j :: 0 <= i < j < |es| ==> es[i] != es[j]
  {
  }

  class Cache {
    const maxEntries: nat
    /** The list, most recently used first, and the map to its elements. */
    var ll: seq<Entry>
    var cache: map<int, Entry>
    /** The calls of `OnEvicted`. */
    var evicted: seq<Pair>

    /** List and map hold the same entries, under each key once. */
    ghost predicate Wired()
      reads this
    {
      Matches(ll, cache)
    }

    ghost predicate Valid()
      reads this
    {
      Wired() && (maxEntries != 0 ==> |ll| <= maxEntries)
    }

    ghost function Contents(): (s: seq<Pair>)
      requires Wired()
      reads this, ll
      ensures DistinctKeys(s)
    {
      Pairs(ll)
    }

    constructor (max: nat)
      ensures Valid() && Contents() == [] && maxEntries == max && evicted == []
    {
      maxEntries, ll, cache, evicted := max, [], map[], [];
    }

    lemma InCache(key: int)
      requires Wired()
      ensures key in cache ==> cache[key] in ll && cache[key].key == key
      ensures key !in cache ==> forall i :: 0 <= i < |ll| ==> ll[i].key != key
    {
    }

    /** `MoveToFront` of the list. */
    method MoveToFront(e: Entry)
      requires Valid() && e in ll
      modifies `ll
      ensures Valid() && |ll| > 0 && ll[0] == e && |ll| == |old(ll)| && forall x :: x in ll ==> x in old(ll)
      ensures Contents() == [Pair(e.key, e.value)] + Without(old(Contents()), e.key)
    {
      var i :| 0 <= i < |ll| && ll[i] == e;
      MatchesDropped(ll, cache, i);
      PairsDropped(ll, i);
      ll := [e] + (ll[..i] + ll[i + 1..]);
    }

    method PushFront(key: int, value: int)
      requires Wired() && key !in cache
      modifies `ll, `cache
      ensures Wired() && Contents() == [Pair(key, value)] + old(Contents()) && |ll| == |old(ll)| + 1
    {
      hide Pairs, Without, Matches;
      var ele := new Entry(key, value);
      MatchesAdded(ll, cache, ele);
      ll := [ele] + ll;
      cache := cache[key := ele];
    }

    /** `Add`: the pair is the most recent; what goes over the limit, and only that, is evicted. */
    method Add(key: int, value: int)
      requires Valid()
      modifies this, ll
      ensures Valid() && Contents() == Added(old(Contents()), Pair(key, value), maxEntries)
      ensures old(evicted) <= evicted
      ensures [Pair(key, value)] + Without(old(Contents()), key) == Contents() + evicted[|old(evicted)|..]
    {
      hide Pairs, Without, Matches;
      InCache(key);
      if key in cache {
        var ee := cache[key];
        MoveToFront(ee);
        ghost var front := Contents();
        OthersApart(ll);
        ee.value := value;
        assert Contents() == [Pair(key, value)] + front[1..];
        return;
      }
      WithoutAbsent(Contents(), key);
      PushFront(key, value);
      if maxEntries != 0 && |ll| > maxEntries {
        RemoveElement(|ll| - 1);
      }
    }

    /** `Get`: a hit becomes the most recent. */
    method Get(key: int) returns (r: Found)
      requires Valid()
      modifies `ll
      ensures Valid() && evicted == old(evicted) && forall x :: x in ll ==> x in old(ll)
      ensures r.Hit? ==> Pair(key, r.value) in old(Contents())
      ensures r.Hit? ==> Contents() == [Pair(key, r.value)] + Without(old(Contents()), key)
      ensures r.Miss? ==> Contents() == old(Contents()) == Without(old(Contents()), key)
    {
      if key in cache {
        var ele := cache[key];
        MoveToFront(ele);
        return Hit(ele.value);
      }
      WithoutAbsent(Contents(), key);
      return Miss;
    }

    /** `Remove`: the key is gone, and what it held has been evicted. */
    method Remove(key: int)
      requires Valid()
      modifies this
      ensures Valid() && Contents() == Without(old(Contents()), key)
      ensures evicted == old(evicted) ||
        exists v :: Pair(key, v) in old(Contents()) && evicted == old(evicted) + [Pair(key, v)]
      ensures evicted == old(evicted) <==> Contents() == old(Contents())
    {
      if key in cache {
        var i :| 0 <= i < |ll| && ll[i] == cache[key];
        PairsDropped(ll, i);
        assert Pair(key, ll[i].value) == Contents()[i];
        RemoveElement(i);
      } else {
        WithoutAbsent(Contents(), key);
      }
    }

    /** `RemoveOldest` */
    method RemoveOldest()
      requires Valid()
      modifies this
      ensures Valid()
      ensures old(evicted) <= evicted && old(Contents()) == Contents() + evicted[|old(evicted)|..]
      ensures old(Contents()) != [] ==> |evicted| == |old(evicted)| + 1
    {
      if |ll| > 0 {
        RemoveElement(|ll| - 1);
      }
    }

    /** `removeElement`, for the element at a place of the list: one eviction. */
    method RemoveElement(i: nat)
      requires Wired() && i < |ll|
      modifies this
      ensures Wired() && ll == old(ll[..i] + ll[i + 1..])
      ensures Contents() == old(Contents()[..i] + Contents()[i + 1..])
      ensures evicted == old(evicted) + [old(Contents()[i])]
    {
      var kv := ll[i];
      MatchesDropped(ll, cache, i);
      PairsDropped(ll, i);
      ll := ll[..i] + ll[i + 1..];
      cache := cache - {kv.key};
      evicted := evicted + [Pair(kv.key, kv.value)];
    }
  }

  /** `getFile` of the store: a cached handle, or else the opened file, which is then cached. */
  method GetFile(c: Cache, block: int, file: Found) returns (r: Found)
    requires c.Valid()
    modifies c, c.ll
    ensures c.Valid() && c.Contents() == Got(old(c.Contents()), Access(block, file), c.maxEntries)
    ensures r == if Held(old(c.Contents()), block).Hit? then Held(old(c.Contents()), block) else file
  {
    ghost var s := c.Contents();
    r := c.Get(block);
    HeldIs(s, block, r);
    if r.Hit? {
      return;
    }
    if file.Hit? {
      c.Add(block, file.value);
    }
    return file;
  }

  lemma HeldIs(s: seq<Pair>, k: int, r: Found)
    requires DistinctKeys(s) && (r.Hit? ==> Pair(k, r.value) in s) && (r.Miss? ==> Without(s, k) == s)
    ensures Held(s, k) == r
  {
    WithoutIn(s, k);
    if r.Miss? {
      HeldNone(s, k);
    } else {
      var i :| 0 <= i < |s| && s[i] == Pair(k, r.value);
      HeldAt(s, i);
    }
  }
}
