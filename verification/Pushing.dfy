/** The batching of pushes on the route server, as in imr/push.go. */
module Pushing {
  import opened Bytes

  const PUSH_LIMIT := 1000

  datatype Push = Push(queueName: string, content: seq<Byte>)

  /** What a receive from the channel meets: a push, the nil that closes it, or nothing: at once in the loop that does
      not block, and until its half second is over in the one that does. */
  datatype Event = Got(push: Push) | Closing | Idle

  function Joined(batches: seq<seq<Push>>): (ps: seq<Push>) {
    if batches == [] then [] else Joined(batches[..|batches| - 1]) + batches[|batches| - 1]
  }

  /** The pushes that come before the channel is closed. */
  function Stream(events: seq<Event>): (ps: seq<Push>) {
    if events == [] then [] else
    match events[0]
    case Got(p) => [p] + Stream(events[1..])
    case Idle => Stream(events[1..])
    case Closing => []
  }

  predicate Sized(batches: seq<seq<Push>>) { forall b :: b in batches ==> 0 < |b| <= PUSH_LIMIT }

  lemma JoinedOne(batches: seq<seq<Push>>, ps: seq<Push>)
    ensures Joined(batches + [ps]) == Joined(batches) + ps
  {
    assert (batches + [ps])[..|batches|] == batches;
  }

  lemma StreamNext(events: seq<Event>, i: nat)
    requires i < |events|
    ensures Stream(events[i..]) == match events[i]
      case Got(p) => [p] + Stream(events[i + 1..])
      case Idle => Stream(events[i + 1..])
      case Closing => []
  {
    assert events[i..][1..] == events[i + 1..];
  }

  /** What is still to come from a place on. */
  function Rest(events: seq<Event>, i: nat, closed: bool): (ps: seq<Push>)
    requires i <= |events|
  {
    if closed then [] else Stream(events[i..])
  }

  /** Whether the closing nil has come before a place. */
  predicate SeenClosing(events: seq<Event>, i: nat, closed: bool)
    requires i <= |events|
  {
    if closed then Closing in events else Closing !in events[..i]
  }

  /** One event: what it adds to the batch, and whether it closes the channel. */
  lemma OneEvent(events: seq<Event>, i: nat, ps: seq<Push>)
    requires i < |events| && SeenClosing(events, i, false)
    ensures var e := events[i];
      && SeenClosing(events, i + 1, e.Closing?)
      && ps + Rest(events, i, false) == ps + (if e.Got? then [e.push] else []) + Rest(events, i + 1, e.Closing?)
  {
    hide Stream;
    StreamNext(events, i);
    assert events[..i + 1] == events[..i] + [events[i]];
    assert events[i] in events;
    if events[i].Got? {
      assert ps + ([events[i].push] + Stream(events[i + 1..])) == ps + [events[i].push] + Stream(events[i + 1..]);
    } else {
      assert ps + [] == ps;
    }
  }

  /** Either of the two inner loops of `Push`: adds what comes to the batch until it is full, nothing comes, or the
      channel is closed. With `waiting` none of these has happened yet. */
  method Fill(events: seq<Event>, from: nat, first: seq<Push>)
    returns (next: nat, ps: seq<Push>, closed: bool, waiting: bool)
    requires from <= |events| && 0 < |first| < PUSH_LIMIT && SeenClosing(events, from, false)
    ensures from <= next <= |events| && 0 < |ps| <= PUSH_LIMIT && SeenClosing(events, next, closed)
    ensures first + Rest(events, from, false) == ps + Rest(events, next, closed)
    ensures waiting ==> next == |events| && !closed && |ps| < PUSH_LIMIT
    ensures forall n :: from <= n < next && events[n].Idle? ==> n == next - 1 && !waiting
    ensures !waiting && !closed && |ps| < PUSH_LIMIT ==> from < next && events[next - 1].Idle?
    ensures closed ==> from < next && events[next - 1].Closing?
  {
    hide Rest, SeenClosing;
    next, ps, closed, waiting := from, first, false, true;
    while waiting && next < |events|
      invariant from <= next <= |events| && 0 < |ps| <= PUSH_LIMIT && SeenClosing(events, next, closed)
      invariant first + Rest(events, from, false) == ps + Rest(events, next, closed)
      invariant waiting ==> !closed && |ps| < PUSH_LIMIT
      invariant forall n :: from <= n < next && events[n].Idle? ==> n == next - 1 && !waiting
      invariant !waiting && !closed && |ps| < PUSH_LIMIT ==> from < next && events[next - 1].Idle?
      invariant closed ==> !waiting && from < next && events[next - 1].Closing?
      decreases |events| - next
    {
      OneEvent(events, next, ps);
      match events[next] {
        case Closing =>
          assert ps + [] == ps;
          closed, waiting := true, false;
        case Got(p) =>
          ps := ps + [p];
          if |ps| >= PUSH_LIMIT {
            waiting := false;
          }
        case Idle =>
          assert ps + [] == ps;
          waiting := false;
      }
      next := next + 1;
    }
  }

  // ---------- when batches are handed on ----------

  /** The channel is still open here, and the last two receives have met nothing. */
  predicate Paused(events: seq<Event>, k: nat) {
    2 <= k <= |events| && events[k - 2].Idle? && events[k - 1].Idle? && Closing !in events[..k]
  }

  /** The first so many batches are these pushes. */
  ghost predicate AllPushed(pushed: seq<seq<Push>>, ps: seq<Push>) {
    exists j :: 0 <= j <= |pushed| && Joined(pushed[..j]) == ps
  }

  /** At every such pause all that had come has been handed on. */
  ghost predicate HandedOn(events: seq<Event>, n: nat, pushed: seq<seq<Push>>)
    requires n <= |events|
  {
    forall k: nat :: k <= n && Paused(events, k) ==> AllPushed(pushed, Stream(events[..k]))
  }

  /** A batch of fewer than 1000 pushes ends with the closing, or with the second time since its first push that
      nothing came. */
  ghost predicate EndsRight(events: seq<Event>, before: seq<Push>, after: seq<Push>) {
    || (Closing in events && after == Stream(events))
    || exists h, k :: 0 <= h < k < |events| && events[h].Idle? && events[k].Idle?
         && |before| < |Stream(events[..h])| && after == Stream(events[..k])
  }

  ghost predicate InTime(events: seq<Event>, pushed: seq<seq<Push>>) {
    forall j :: 0 <= j < |pushed| && |pushed[j]| < 1000 ==>
      EndsRight(events, Joined(pushed[..j]), Joined(pushed[..j + 1]))
  }

  lemma {:induction false} StreamSplit(events: seq<Event>, i: nat)
    requires i <= |events| && Closing !in events[..i]
    ensures Stream(events) == Stream(events[..i]) + Stream(events[i..])
  {
    if i > 0 {
      assert events[..i][1..] == events[1..][..i - 1] && events[0] in events[..i];
      forall e | e in events[1..][..i - 1] ensures e in events[..i] {}
      StreamSplit(events[1..], i - 1);
      assert events[i..] == events[1..][i - 1..];
    } else {
      assert events[..0] == [] && events[0..] == events;
    }
  }

  /** With the channel open, the batches are all that has come before this place. */
  lemma SoFar(events: seq<Event>, i: nat, ps: seq<Push>)
    requires i <= |events| && SeenClosing(events, i, false) && Stream(events) == ps + Rest(events, i, false)
    ensures ps == Stream(events[..i])
  {
    hide Stream;
    StreamSplit(events, i);
    var rest := Stream(events[i..]);
    assert ps == (ps + rest)[..|ps|];
    assert Stream(events[..i]) == (Stream(events[..i]) + rest)[..|Stream(events[..i])|];
  }

  /** More batches, and no pause on the way but perhaps at the end. */
  lemma HandedOnMore(events: seq<Event>, i: nat, n: nat, was: seq<seq<Push>>, pushed: seq<seq<Push>>)
    requires i <= n <= |events| && HandedOn(events, i, was) && was <= pushed
    requires forall k: nat :: i < k < n ==> !Paused(events, k)
    requires Paused(events, n) && i < n ==> Joined(pushed) == Stream(events[..n])
    ensures HandedOn(events, n, pushed)
  {
    hide Joined, Stream, Paused;
    assert pushed[..|pushed|] == pushed;
    forall k: nat | k <= n && Paused(events, k) ensures AllPushed(pushed, Stream(events[..k])) {
      if k <= i {
        var j :| 0 <= j <= |was| && Joined(was[..j]) == Stream(events[..k]);
        assert pushed[..j] == was[..j];
      }
    }
  }

  lemma InTimeMore(events: seq<Event>, pushed: seq<seq<Push>>, ps: seq<Push>)
    requires InTime(events, pushed)
    requires |ps| < 1000 ==> EndsRight(events, Joined(pushed), Joined(pushed + [ps]))
    ensures InTime(events, pushed + [ps])
  {
    hide Joined, EndsRight;
    var all := pushed + [ps];
    assert all[..|pushed|] == pushed && all[..|pushed| + 1] == all;
    forall j | 0 <= j < |pushed| && |pushed[j]| < 1000
      ensures EndsRight(events, Joined(all[..j]), Joined(all[..j + 1]))
    {
      assert all[..j] == pushed[..j] && all[..j + 1] == pushed[..j + 1];
    }
  }

  /** A batch that a pause ends. */
  lemma EndsPaused(events: seq<Event>, i: nat, h: nat, k: nat, before: seq<Push>, after: seq<Push>)
    requires i < h < k < |events| && events[i].Got? && events[h].Idle? && events[k].Idle? && Closing !in events[..k + 1]
    requires before == Stream(events[..i]) && after == Stream(events[..k + 1])
    ensures EndsRight(events, before, after)
  {
    OneMore(events, i);
    OneMore(events, k);
    assert events[..h][..i + 1] == events[..i + 1];
    assert Closing !in events[..h] by { assert events[..h] == events[..k + 1][..h]; }
    assert Closing !in events[..i + 1] by { assert events[..i + 1] == events[..k + 1][..i + 1]; }
    StreamSplit(events[..h], i + 1);
  }

  lemma OneMore(events: seq<Event>, k: nat)
    requires k < |events| && Closing !in events[..k + 1]
    ensures Stream(events[..k + 1]) == Stream(events[..k]) + if events[k].Got? then [events[k].push] else []
  {
    var all := events[..k + 1];
    assert all[..k] == events[..k] && all[k..] == [events[k]] && events[k] in all;
    StreamSplit(all, k);
    assert [events[k]][1..] == [];
  }

  lemma NothingPushed(events: seq<Event>) ensures InTime(events, []) && HandedOn(events, 0, []) {}

  /** Between two receives of nothing there is no pause, nor behind the closing. */
  lemma NoPause(events: seq<Event>, i: nat, mid: nat, n: nat)
    requires i < mid <= n <= |events| && !events[i].Idle?
    requires forall k :: i < k < mid - 1 || mid <= k < n - 1 ==> !events[k].Idle?
    ensures forall k :: i < k < n ==> !Paused(events, k)
    ensures n == mid || !events[n - 1].Idle? ==> !Paused(events, n)
  {
  }

  lemma NoPauseBehind(events: seq<Event>, n: nat)
    requires 0 < n <= |events| && events[n - 1].Closing?
    ensures forall k: nat :: n <= k ==> !Paused(events, k)
  {
    forall k: nat | n <= k <= |events| ensures Closing in events[..k] { assert events[..k][n - 1] == Closing; }
  }

  /** `Push`: in whatever way pushes, pauses and the closing nil come, the batches handed on hold 1 to 1000 pushes
      and are, with the one being filled, all that came, in order; after the closing nothing is kept back, nor when a
      pause is longer than the loops wait. A batch is not cut short otherwise. */
  method Run(events: seq<Event>) returns (pushed: seq<seq<Push>>, ps: seq<Push>, closed: bool)
    ensures Sized(pushed) && |ps| < PUSH_LIMIT
    ensures Joined(pushed) + ps == Stream(events)
    ensures (closed <==> Closing in events) && (closed ==> ps == [])
    ensures HandedOn(events, |events|, pushed) && InTime(events, pushed)
    ensures Paused(events, |events|) ==> ps == []
  {
    hide Rest, SeenClosing, Joined, Stream, Paused, HandedOn, InTime, EndsRight;
    pushed, ps, closed := [], [], false;
    var i: nat := 0;
    AtStart(events);
    NothingPushed(events);
    while !closed && i < |events|
      invariant i <= |events| && Sized(pushed) && ps == [] && SeenClosing(events, i, closed)
      invariant Stream(events) == Joined(pushed) + Rest(events, i, closed)
      invariant InTime(events, pushed) && HandedOn(events, if closed then |events| else i, pushed)
      decreases |events| - i
    {
      ghost var start, was := i, pushed;
      OneEvent(events, i, []);
      SoFar(events, i, Joined(pushed));
      var e := events[i];
      Regroup(Joined(pushed), [], Rest(events, i, false));
      i := i + 1;
      if e.Closing? {
        closed := true;
        NoPauseBehind(events, i);
        HandedOnMore(events, start, |events|, was, pushed);
        assert [] + [] + Rest(events, i, true) == Rest(events, i, true);
        break;
      }
      if e.Idle? {
        assert [] + [] + Rest(events, i, false) == Rest(events, i, false);
        SoFar(events, i, Joined(pushed));
        HandedOnMore(events, start, i, was, pushed);
        continue;
      }
      ps := [e.push];
      assert [] + ps == ps;
      var waiting;
      i, ps, closed, waiting := Fill(events, i, ps);
      ghost var mid := i;
      if !closed && |ps| < PUSH_LIMIT {
        i, ps, closed, waiting := Fill(events, i, ps);
        if waiting {
          NoPause(events, start, mid, i);
          AtEnd(events, i, closed);
          HandedOnMore(events, start, i, was, pushed);
          assert Joined(pushed) + (ps + []) == Joined(pushed) + ps && ps + [] == ps;
          return;
        }
      }
      Regroup(Joined(pushed), ps, Rest(events, i, closed));
      JoinedOne(pushed, ps);
      pushed := pushed + [ps];
      BatchEnds(events, start, mid, i, was, ps, closed);
      ps := [];
    }
    AtEnd(events, i, closed);
    assert Joined(pushed) + [] == Joined(pushed);
  }

  /** What one batch more means for the pauses and for the batches. */
  lemma BatchEnds(events: seq<Event>, i: nat, mid: nat, n: nat, was: seq<seq<Push>>, ps: seq<Push>, closed: bool)
    requires i < mid <= n <= |events| && events[i].Got? && SeenClosing(events, n, closed)
    requires forall k :: i < k < mid - 1 || mid <= k < n - 1 ==> !events[k].Idle?
    requires HandedOn(events, i, was) && InTime(events, was) && Joined(was) == Stream(events[..i])
    requires Stream(events) == Joined(was + [ps]) + Rest(events, n, closed)
    requires closed ==> events[n - 1].Closing?
    requires !closed && |ps| < 1000 ==> events[mid - 1].Idle? && mid < n && events[n - 1].Idle?
    ensures HandedOn(events, if closed then |events| else n, was + [ps]) && InTime(events, was + [ps])
  {
    hide Joined, Stream, Paused, HandedOn, InTime, EndsRight;
    NoPause(events, i, mid, n);
    if closed {
      NoPauseBehind(events, n);
      HandedOnMore(events, i, |events|, was, was + [ps]);
      EndsClosed(events, Joined(was), Joined(was + [ps]));
    } else {
      SoFar(events, n, Joined(was + [ps]));
      HandedOnMore(events, i, n, was, was + [ps]);
      if |ps| < 1000 { EndsPaused(events, i, mid - 1, n - 1, Joined(was), Joined(was + [ps])); }
    }
    InTimeMore(events, was, ps);
  }

  lemma EndsClosed(events: seq<Event>, before: seq<Push>, after: seq<Push>)
    requires Closing in events && Stream(events) == after + []
    ensures EndsRight(events, before, after)
  {
  }

  lemma Regroup(a: seq<Push>, b: seq<Push>, c: seq<Push>)
    ensures a + (b + c) == a + b + c && [] + c == c
  {
  }

  lemma AtStart(events: seq<Event>)
    ensures SeenClosing(events, 0, false) && Joined([]) + Rest(events, 0, false) == Stream(events)
  {
    assert events[0..] == events;
  }

  lemma AtEnd(events: seq<Event>, i: nat, closed: bool)
    requires i <= |events| && (closed || i == |events|) && SeenClosing(events, i, closed)
    ensures Rest(events, i, closed) == [] && (closed <==> Closing in events)
  {
    assert events[..|events|] == events;
  }
}
