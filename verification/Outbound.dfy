/** A connection's queue of outgoing messages and the token that wakes its writer, as in im/connection.go
    and im/client.go. */
module Outbound {
  import opened Bytes
  import opened Protocol

  const MESSAGE_QUEUE_LIMIT := 1000

  datatype Metadata = Metadata(syncKey: Int64, prevSyncKey: Int64)

  /** A message with the metadata sent ahead of it. */
  datatype Outgoing = Outgoing(msg: Message, meta: Option<Metadata>)

  /** What goes to the socket. */
  datatype Wire = MetaFrame(seqNo: int, version: int, meta: Metadata) | MessageFrame(msg: Message)

  function SeqOf(w: Wire): (r: int) { if w.MetaFrame? then w.seqNo else w.msg.seqNo }

  /** The frames of messages that follow sequence number `seqNo`. */
  function Numbering(seqNo: int, version: int, ms: seq<Outgoing>): (r: seq<Wire>) {
    if ms == [] then [] else
    var front, last := Numbering(seqNo, version, ms[..|ms| - 1]), ms[|ms| - 1];
    var meta := if last.meta.Some? then [MetaFrame(seqNo + |front| + 1, version, last.meta.value)] else [];
    front + meta + [MessageFrame(last.msg.(seqNo := seqNo + |front| + |meta| + 1, version := version))]
  }

  predicate Consecutive(f: seq<Wire>, first: int) { forall i :: 0 <= i < |f| ==> SeqOf(f[i]) == first + i }

  /** The frames are numbered consecutively. */
  lemma {:induction false} Numbered(seqNo: int, version: int, ms: seq<Outgoing>)
    ensures Consecutive(Numbering(seqNo, version, ms), seqNo + 1)
  {
    if ms != [] { Numbered(seqNo, version, ms[..|ms| - 1]); }
  }

  lemma {:induction false} NumberingConcat(seqNo: int, version: int, a: seq<Outgoing>, b: seq<Outgoing>)
    ensures Numbering(seqNo, version, a + b)
      == Numbering(seqNo, version, a) + Numbering(seqNo + |Numbering(seqNo, version, a)|, version, b)
  {
    if b == [] {
      assert a + b == a;
    } else {
      var n, all := |b| - 1, a + b;
      assert all[..|all| - 1] == a + b[..n] && all[|all| - 1] == b[n];
      NumberingConcat(seqNo, version, a, b[..n]);
    }
  }

  /** What a client gets back from the frames: each message with the metadata right before it. */
  function Delivered(ws: seq<Wire>): (r: seq<Outgoing>) {
    if ws == [] then [] else
    var n := |ws| - 1;
    match ws[n]
    case MetaFrame(_, _, _) => Delivered(ws[..n])
    case MessageFrame(m) =>
      Delivered(ws[..n]) +
      [Outgoing(m.(seqNo := 0, version := 0), if n > 0 && ws[n - 1].MetaFrame? then Some(ws[n - 1].meta) else None)]
  }

  /** A message without the fields the writer fills in. */
  function Plain(o: Outgoing): (r: Outgoing) { o.(msg := o.msg.(seqNo := 0, version := 0)) }

  /** The frames carry exactly the messages, in order, each with its own metadata. */
  lemma {:induction false} NumberingDelivers(seqNo: int, version: int, ms: seq<Outgoing>)
    ensures Delivered(Numbering(seqNo, version, ms)) == seq(|ms|, i requires 0 <= i < |ms| => Plain(ms[i]))
    ensures var f := Numbering(seqNo, version, ms);
      ms != [] ==> f != [] && f[|f| - 1].MessageFrame?
  {
    if ms != [] {
      var n := |ms| - 1;
      NumberingDelivers(seqNo, version, ms[..n]);
      var front, f := Numbering(seqNo, version, ms[..n]), Numbering(seqNo, version, ms);
      if ms[n].meta.Some? {
        assert f[..|f| - 1][..|front|] == front;
      } else {
        assert f[..|f| - 1] == front;
      }
    }
  }

  /** Where the frame of the k-th message stands: behind those of the messages before it and its own metadata. */
  function FrameAt(ms: seq<Outgoing>, k: nat): (p: nat)
    requires k < |ms|
  {
    (if k == 0 then 0 else FrameAt(ms, k - 1) + 1) + if ms[k].meta.Some? then 1 else 0
  }

  /** The k-th message as the client gets it: with the number of its place and the connection's version, and right
      before it, under the number before, its metadata. */
  ghost predicate Written(f: seq<Wire>, seqNo: int, version: int, ms: seq<Outgoing>, k: nat)
    requires k < |ms|
  {
    var p, m := FrameAt(ms, k), ms[k].msg;
    && p < |f| && f[p] == MessageFrame(Message(m.cmd, seqNo + 1 + p, version, m.flag, m.body))
    && (ms[k].meta.Some? ==> p > 0 && f[p - 1] == MetaFrame(seqNo + p, version, ms[k].meta.value))
  }

  /** All frames, message by message. */
  lemma {:induction false} FramesOf(seqNo: int, version: int, ms: seq<Outgoing>)
    ensures var f := Numbering(seqNo, version, ms);
      && |f| == (if ms == [] then 0 else FrameAt(ms, |ms| - 1) + 1)
      && forall k :: 0 <= k < |ms| ==> Written(f, seqNo, version, ms, k)
  {
    if ms != [] {
      var n := |ms| - 1;
      var front, f := Numbering(seqNo, version, ms[..n]), Numbering(seqNo, version, ms);
      FramesOf(seqNo, version, ms[..n]);
      forall k | 0 <= k < n ensures Written(f, seqNo, version, ms, k) {
        SameFrame(ms, n, k);
        assert Written(front, seqNo, version, ms[..n], k);
      }
      if n > 0 { SameFrame(ms, n, n - 1); }
    }
  }

  lemma {:induction false} SameFrame(ms: seq<Outgoing>, n: nat, k: nat)
    requires k < n <= |ms|
    ensures FrameAt(ms[..n], k) == FrameAt(ms, k)
  {
    if k > 0 { SameFrame(ms, n, k - 1); }
  }

  /** The queue is the newest of these messages, as many as 1000 at most. */
  predicate Newest(q: seq<Outgoing>, s: seq<Outgoing>) {
    |q| == (if |s| < 1000 then |s| else 1000) && q == s[|s| - |q|..]
  }

  /** The newest messages that fit the queue. */
  function Last(s: seq<Outgoing>): (r: seq<Outgoing>)
    ensures |r| <= MESSAGE_QUEUE_LIMIT && |r| <= |s|
  {
    if |s| <= MESSAGE_QUEUE_LIMIT then s else s[|s| - MESSAGE_QUEUE_LIMIT..]
  }

  lemma LastIsNewest(s: seq<Outgoing>) ensures Newest(Last(s), s) && s + [] == s {}

  /** The messages of one call. */
  function Given(msg: Outgoing, sub: Option<Outgoing>): (r: seq<Outgoing>) {
    [msg] + if sub.Some? then [sub.value] else []
  }

  lemma GivenIs(msg: Outgoing, sub: Option<Outgoing>)
    ensures Given(msg, sub) == if sub.Some? then [msg, sub.value] else [msg]
  {
  }

  class Connection {
    var closed: bool
    var tc: nat
    var messages: seq<Outgoing>
    /** The wakeup channel, which holds one token. */
    var lwt: bool
    const version: int
    /** Everything enqueued since the queue was last drained. */
    ghost var since: seq<Outgoing>

    ghost predicate Valid()
      reads this
    {
      messages == Last(since)
    }

    /** The part of `EnqueueNonBlockContinueMessage` under the lock: a full queue drops its oldest message. */
    method Push(msg: Outgoing, sub: Option<Outgoing>)
      requires Valid()
      modifies `messages, `since
      ensures Valid() && since == old(since) + Given(msg, sub)
      ensures Newest(messages, old(since) + if sub.Some? then [msg, sub.value] else [msg])
    {
      hide Newest, Last, Given;
      PushedLast(since, msg, sub);
      GivenIs(msg, sub);
      if |messages| >= MESSAGE_QUEUE_LIMIT {
        messages := messages[1..];
      }
      messages := messages + [msg];
      if sub.Some? {
        if |messages| >= MESSAGE_QUEUE_LIMIT {
          messages := messages[1..];
        }
        messages := messages + [sub.value];
      }
      since := since + Given(msg, sub);
      LastIsNewest(since);
    }

    /** `EnqueueNonBlockContinueMessage`: refused on a closed or blocked connection; otherwise the queue is the
        newest of all that came since the last drain, and the writer has been signalled. */
    method EnqueueNonBlockContinueMessage(msg: Outgoing, sub: Option<Outgoing>) returns (ok: bool)
      requires Valid()
      modifies this
      ensures Valid() && (ok <==> !old(closed) && old(tc) == 0) && closed == old(closed)
      ensures since == if ok then old(since) + Given(msg, sub) else old(since)
      ensures Newest(messages, old(since) + if !ok then [] else if sub.Some? then [msg, sub.value] else [msg])
      ensures ok ==> lwt && tc == 0
      ensures !ok ==> lwt == old(lwt) && messages == old(messages) && tc == old(tc) + if old(closed) then 0 else 1
    {
      hide Newest, Last, Given;
      LastIsNewest(since);
      GivenIs(msg, sub);
      if closed {
        return false;
      }
      if tc > 0 {
        tc := tc + 1;
        return false;
      }
      Push(msg, sub);
      lwt := true;
      return true;
    }

    /** `SendMessages`: drains the queue and writes its messages in order under consecutive numbers. */
    method SendMessages(seqNo: int) returns (next: int, sent: seq<Wire>)
      requires Valid()
      modifies `messages, `since
      ensures Valid() && messages == [] && since == []
      ensures sent == Numbering(seqNo, version, Last(old(since))) && next == seqNo + |sent|
      ensures |sent| == if old(messages) == [] then 0 else FrameAt(old(messages), |old(messages)| - 1) + 1
      ensures forall k :: 0 <= k < |old(messages)| ==> Written(sent, seqNo, version, old(messages), k)
    {
      FramesOf(seqNo, version, messages);
      next, sent := seqNo, [];
      since := [];
      if |messages| == 0 {
        return;
      }
      var drained := messages;
      messages := [];
      for k := 0 to |drained|
        invariant sent == Numbering(seqNo, version, drained[..k]) && next == seqNo + |sent|
      {
        assert drained[..k + 1][..k] == drained[..k];
        var o := drained[k];
        if o.meta.Some? {
          next := next + 1;
          sent := sent + [MetaFrame(next, version, o.meta.value)];
        }
        next := next + 1;
        sent := sent + [MessageFrame(o.msg.(seqNo := next, version := version))];
      }
      assert drained[..|drained|] == drained;
    }
  }

  // ---------- enqueuers and the writer, interleaved ----------

  /** Where the writer stands: waiting for the token, holding it but not yet at the queue, or sending. */
  datatype Writer = Waiting | Woken | Sending(batch: seq<Outgoing>)

  /** The connection between two atomic steps. `signalling` enqueuers have left the lock and not yet signalled;
      `drained` are the stretches of enqueued messages that were drained, `handed` what was written. */
  datatype State = State(
    messages: seq<Outgoing>, token: bool, signalling: nat, writer: Writer,
    ghost since: seq<Outgoing>, ghost drained: seq<seq<Outgoing>>, ghost handed: seq<Outgoing>)

  datatype Step = Enqueue(msg: Outgoing, sub: Option<Outgoing>) | Signal | Wake | Swap | Send

  function PushBack(q: seq<Outgoing>, o: Outgoing): (r: seq<Outgoing>) {
    (if |q| >= MESSAGE_QUEUE_LIMIT then q[1..] else q) + [o]
  }

  ghost predicate Enabled(s: State, step: Step) {
    match step
    case Enqueue(_, _) => true
    case Signal => s.signalling > 0
    case Wake => s.writer == Waiting && s.token
    case Swap => s.writer == Woken
    case Send => s.writer.Sending?
  }

  /** One step of one goroutine. */
  ghost function Do(s: State, step: Step): (r: State)
    requires Enabled(s, step)
  {
    match step
    case Enqueue(msg, sub) =>
      var q := PushBack(s.messages, msg);
      s.(messages := if sub.Some? then PushBack(q, sub.value) else q,
         since := s.since + Given(msg, sub), signalling := s.signalling + 1)
    case Signal => s.(token := true, signalling := s.signalling - 1)
    case Wake => s.(token := false, writer := Woken)
    case Swap =>
      if s.messages == [] then s.(writer := Waiting)
      else s.(messages := [], since := [], drained := s.drained + [s.since], writer := Sending(s.messages))
    case Send => s.(writer := Waiting, handed := s.handed + s.writer.batch)
  }

  ghost predicate CanRun(s: State, steps: seq<Step>)
    decreases |steps|
  {
    steps == [] || (Enabled(s, steps[0]) && CanRun(Do(s, steps[0]), steps[1..]))
  }

  ghost function RunAll(s: State, steps: seq<Step>): (r: State)
    requires CanRun(s, steps)
    decreases |steps|
  {
    if steps == [] then s else RunAll(Do(s, steps[0]), steps[1..])
  }

  ghost function Start(): (s: State)
    ensures Inv(s)
  {
    State([], false, 0, Waiting, [], [], [])
  }

  function Concat(cs: seq<seq<Outgoing>>): (r: seq<Outgoing>) {
    if cs == [] then [] else Concat(cs[..|cs| - 1]) + cs[|cs| - 1]
  }

  /** What is kept of the stretches between drains. */
  function Kept(cs: seq<seq<Outgoing>>): (r: seq<Outgoing>) {
    if cs == [] then [] else Kept(cs[..|cs| - 1]) + Last(cs[|cs| - 1])
  }

  ghost predicate Inv(s: State) {
    && s.messages == Last(s.since)
    && (s.messages != [] ==> s.token || s.signalling > 0 || s.writer == Woken)
    && s.handed + (if s.writer.Sending? then s.writer.batch else []) == Kept(s.drained)
  }

  lemma PushedLast(since: seq<Outgoing>, msg: Outgoing, sub: Option<Outgoing>)
    ensures var q := PushBack(Last(since), msg);
      Last(since + Given(msg, sub)) == if sub.Some? then PushBack(q, sub.value) else q
  {
    PushLast(since, msg);
    if sub.Some? {
      PushLast(since + [msg], sub.value);
      assert since + Given(msg, sub) == since + [msg] + [sub.value];
    } else {
      assert since + Given(msg, sub) == since + [msg];
    }
  }

  lemma PushLast(since: seq<Outgoing>, o: Outgoing)
    ensures PushBack(Last(since), o) == Last(since + [o])
  {
  }

  lemma StepKeepsInv(s: State, step: Step)
    requires Inv(s) && Enabled(s, step)
    ensures Inv(Do(s, step))
  {
    hide Given, Kept, Last, PushBack;
    match step
    case Enqueue(msg, sub) => PushedLast(s.since, msg, sub);
    case Swap =>
      LastEmpty(s.since);
      if s.messages != [] { KeptOne(s.drained, s.since); }
    case _ =>
  }

  lemma KeptOne(cs: seq<seq<Outgoing>>, c: seq<Outgoing>)
    ensures Kept(cs + [c]) == Kept(cs) + [] + Last(c) && Kept(cs + [c]) == Kept(cs) + Last(c)
    ensures Concat(cs + [c]) == Concat(cs) + c
  {
    assert (cs + [c])[..|cs|] == cs;
  }

  lemma LastEmpty(s: seq<Outgoing>) ensures Last([]) == [] && (Last(s) == [] ==> s == []) {}

  /** A step moves what was enqueued along and adds its own. */
  lemma StepAccount(s: State, step: Step)
    requires Inv(s) && Enabled(s, step)
    ensures var t := Do(s, step);
      Concat(t.drained) + t.since == Concat(s.drained) + s.since + EnqueuedBy(step)
  {
    hide Given, Kept, Last, PushBack;
    LastEmpty(s.since);
    if step.Swap? && s.messages != [] {
      KeptOne(s.drained, s.since);
      assert Concat(s.drained) + s.since + [] == Concat(s.drained) + s.since;
    }
  }

  function EnqueuedBy(step: Step): (r: seq<Outgoing>) { if step.Enqueue? then Given(step.msg, step.sub) else [] }

  /** The messages enqueued by a run. */
  function Enqueued(steps: seq<Step>): (r: seq<Outgoing>) {
    if steps == [] then [] else EnqueuedBy(steps[0]) + Enqueued(steps[1..])
  }

  /** Safety over all runs: whatever the interleaving, the queue is the newest 1000 of what came since the
      last drain, a waiting message has a wakeup on the way, and what was written is, in order, what was
      kept of all that was enqueued. */
  lemma {:induction false} AllRuns(s: State, steps: seq<Step>)
    requires Inv(s) && CanRun(s, steps)
    ensures var t := RunAll(s, steps);
      && Inv(t) && Concat(t.drained) + t.since == Concat(s.drained) + s.since + Enqueued(steps)
      && Newest(t.messages, t.since)
    decreases |steps|
  {
    hide Inv, Enabled, Do, EnqueuedBy, Concat, Newest;
    InvNewest(s);
    if steps == [] {
      assert Concat(s.drained) + s.since + [] == Concat(s.drained) + s.since;
    } else {
      StepKeepsInv(s, steps[0]);
      StepAccount(s, steps[0]);
      AllRuns(Do(s, steps[0]), steps[1..]);
    }
  }

  lemma InvNewest(s: State)
    requires Inv(s)
    ensures Newest(s.messages, s.since)
  {
    hide Last;
    LastIsNewest(s.since);
  }

  /** Nothing is dropped exactly when no stretch between two drains was longer than the queue. */
  lemma {:induction false} KeptIff(cs: seq<seq<Outgoing>>)
    ensures Kept(cs) == Concat(cs) <==> forall c :: c in cs ==> |c| <= MESSAGE_QUEUE_LIMIT
    ensures |Kept(cs)| <= |Concat(cs)|
  {
    if cs != [] {
      var init, last := cs[..|cs| - 1], cs[|cs| - 1];
      KeptIff(init);
      assert cs == init + [last];
      var a, b := Kept(init), Concat(init);
      if a + Last(last) == b + last {
        assert |a| == |b| && a == (a + Last(last))[..|a|] && b == (b + last)[..|b|];
      }
    }
  }

  /** How many steps are left without further messages. */
  ghost function Work(s: State): (r: nat) {
    5 * s.signalling + (if s.token then 4 else 0) +
    match s.writer
    case Waiting => 0
    case Woken => 3
    case Sending(_) => 1
  }

  predicate NoEnqueue(steps: seq<Step>) { forall i :: 0 <= i < |steps| ==> !steps[i].Enqueue? }

  ghost predicate Stopped(s: State) { forall step: Step :: !step.Enqueue? ==> !Enabled(s, step) }

  /** No lost wakeup: once messages stop coming, every run soon stops, and where it stops the queue is empty
      and all that was kept has been written. */
  lemma {:induction false} QueueDrains(s: State, steps: seq<Step>)
    requires Inv(s) && CanRun(s, steps) && NoEnqueue(steps)
    ensures |steps| <= Work(s)
    ensures var t := RunAll(s, steps);
      Inv(t) && (Stopped(t) ==> t.messages == [] && t.handed == Kept(t.drained) && t.since == [])
    decreases |steps|
  {
    if steps == [] {
      LastEmpty(s.since);
      if Stopped(s) {
        assert !Enabled(s, Signal) && !Enabled(s, Wake) && !Enabled(s, Swap) && !Enabled(s, Send);
        assert s.handed + [] == s.handed;
      }
    } else {
      assert !steps[0].Enqueue?;
      StepKeepsInv(s, steps[0]);
      assert forall i :: 0 <= i < |steps[1..]| ==> steps[1..][i] == steps[i + 1];
      QueueDrains(Do(s, steps[0]), steps[1..]);
    }
  }
}
