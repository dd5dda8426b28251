/** What the client can always do next: serve a fresh call, let a caller go, stop. */
module RpcProgress {
  import opened MachineInt
  import opened RpcDispatcher
  import opened RpcGuarantees
  import opened RpcProtocol
  import opened RpcSafety
  import opened RpcWitness

  // Stopping.

  /** From every reachable state in which the dispatcher runs, cancelling the context lets it
      shut down: it stops, every send that was pending is recorded as closed by shutdown and has
      its channel closed, and nothing else that was settled changes. */
  lemma CancelStops(start: uint32, t: State) returns (u: State)
    requires Reachable(start, t) && t.running
    ensures Runs(t, [Cancel, Shutdown], u) && Reachable(start, u)
    ensures !u.running && u.cancelled
    ensures u.calls == t.calls && u.sem == t.sem && u.sent == t.sent
    ensures forall n: nat :: IsPending(t, n) ==>
              n in u.fates && u.fates[n] == ClosedByShutdown && u.sent[n].call in u.disp.closed
    ensures forall n: nat :: n in t.fates ==> n in u.fates && u.fates[n] == t.fates[n]
  {
    ReachableIsSound(start, t);
    hide Inv, Reachable, Apply, Enabled, Runs, ApplyShutdown, Stopped;
    var s := t.(cancelled := true);
    u := ApplyShutdown(s);
    CancelThenShutdown(t, s);
    TwoSteps(t, Cancel, s, Shutdown, u);
    Then(start, t, Cancel, s);
    Then(start, s, Shutdown, u);
    ShutdownStops(s);
    StoppedShape(s, u);
    PendingOf(start, t, s);
    forall n: nat | IsPending(t, n)
      ensures n in u.fates && u.fates[n] == ClosedByShutdown && u.sent[n].call in u.disp.closed
    {
      StoppedClosesPending(s, u, n);
    }
    forall n: nat | n in t.fates
      ensures n in u.fates && u.fates[n] == t.fates[n]
    {
      StoppedKeepsFate(s, u, n);
    }
  }

  lemma CancelThenShutdown(t: State, s: State)
    requires t.running && s == t.(cancelled := true)
    ensures Enabled(t, Cancel) && Apply(t, Cancel) == s
    ensures Enabled(s, Shutdown) && Apply(s, Shutdown) == ApplyShutdown(s)
  {}

  lemma PendingOf(start: uint32, t: State, s: State)
    requires Inv(start, t) && s == t.(cancelled := true)
    ensures PendingSound(s) && FatesSound(s)
    ensures forall n: nat :: IsPending(s, n) <==> IsPending(t, n)
  {
    assert OnlyCallersMoved(t, s);
    CallersMoveKeepsDispatcher(t, s);
    CallersMoveKeepsFates(t, s);
  }

  lemma StoppedShape(s: State, u: State)
    requires Stopped(s, u) && u == ApplyShutdown(s)
    ensures !u.running && u.cancelled == s.cancelled && u.calls == s.calls && u.sem == s.sem && u.sent == s.sent
  {}

  lemma StoppedClosesPending(s: State, u: State, n: nat)
    requires PendingSound(s) && Stopped(s, u) && IsPending(s, n)
    ensures n < |u.sent| && n in u.fates && u.fates[n] == ClosedByShutdown && u.sent[n].call in u.disp.closed
  {
    PendingValues(s, n);
    hide PendingSound;
  }

  lemma StoppedKeepsFate(s: State, u: State, n: nat)
    requires PendingSound(s) && FatesSound(s) && Stopped(s, u) && n in s.fates
    ensures n in u.fates && u.fates[n] == s.fates[n]
  {
    assert n < |s.sent| && !IsPending(s, n);
    PendingValues(s, n);
    hide PendingSound, FatesSound, HandleShutdown;
  }

  lemma TwoSteps(t: State, first: Event, s: State, second: Event, u: State)
    requires Enabled(t, first) && s == Apply(t, first)
    requires Enabled(s, second) && u == Apply(s, second)
    ensures Runs(t, [first, second], u)
  {
    OneStep(t, first);
    OneStep(s, second);
    hide Apply, Enabled;
    RunsCompose(t, [first], s, [second], u);
    assert [first] + [second] == [first, second];
  }

  /** Every caller inside the guarded section can time out; exactly that is what it returns, it
      gives back the semaphore, and nobody else is affected. */
  lemma CallerCanTimeOut(start: uint32, t: State, c: CallId) returns (u: State)
    requires Reachable(start, t) && Active(t, c)
    ensures Runs(t, [GiveUp(c, TimedOut)], u)
    ensures u.calls == t.calls[c := Done(TimedOut)] && u.sem == t.sem - {c} && u.disp == t.disp
    ensures c in t.sem
  {
    ReachableIsSound(start, t);
    hide ChannelsSound, SendLogSound, PendingSound, FatesSound, ResponsesSound;
    u := t.(calls := t.calls[c := Done(TimedOut)], sem := t.sem - {c});
    OneStep(t, GiveUp(c, TimedOut));
  }

  /** Once the context is cancelled every such caller can return with exactly that error. */
  lemma CallerCanLeave(start: uint32, t: State, c: CallId) returns (u: State)
    requires Reachable(start, t) && Active(t, c) && t.cancelled
    ensures Runs(t, [GiveUp(c, Cancelled)], u)
    ensures u.calls == t.calls[c := Done(Cancelled)] && u.sem == t.sem - {c} && u.disp == t.disp
    ensures c in t.sem
  {
    ReachableIsSound(start, t);
    hide ChannelsSound, SendLogSound, PendingSound, FatesSound, ResponsesSound;
    u := t.(calls := t.calls[c := Done(Cancelled)], sem := t.sem - {c});
    OneStep(t, GiveUp(c, Cancelled));
  }

  /** A caller that could not be let in, or whose parameters cannot be marshalled, returns with
      exactly that error and holds nothing. */
  lemma CallerCanBeTurnedAway(t: State, c: CallId, o: Outcome) returns (u: State)
    requires (c !in t.calls && (o == TimedOut || (o == Cancelled && t.cancelled))) || (InPhase(t, c, Entered) && o == Unmarshalable)
    ensures Runs(t, [GiveUp(c, o)], u)
    ensures u.calls == t.calls[c := Done(o)] && u.sem == t.sem - {c} && u.disp == t.disp && u.sendQueue == t.sendQueue
  {
    u := t.(calls := t.calls[c := Done(o)], sem := t.sem - {c});
    OneStep(t, GiveUp(c, o));
  }

  /** A caller past the queue whose channel is closed can return with exactly that. */
  lemma CallerSeesClosedChannel(start: uint32, t: State, c: CallId) returns (u: State)
    requires Reachable(start, t) && c in t.disp.closed && (InPhase(t, c, Queued) || InPhase(t, c, Waiting))
    ensures Runs(t, [ReceiveNil(c)], u)
    ensures u.calls == t.calls[c := Done(ClosedChannel)] && u.sem == t.sem - {c} && u.disp == t.disp
    ensures c in t.sem
  {
    ReachableIsSound(start, t);
    hide ChannelsSound, SendLogSound, PendingSound, FatesSound, ResponsesSound;
    u := t.(calls := t.calls[c := Done(ClosedChannel)], sem := t.sem - {c});
    OneStep(t, ReceiveNil(c));
  }

  /** A shutdown leaves nobody with a pending request stuck: a caller still inside can return
      with a cancellation or with a closed channel. */
  lemma ShutdownReleasesCallers(start: uint32, t: State, n: nat) returns (u: State, left: State, closed: State)
    requires Reachable(start, t) && t.running && IsPending(t, n) && Active(t, t.sent[n].call)
    ensures Runs(t, [Cancel, Shutdown], u) && !u.running && n in u.fates && u.fates[n] == ClosedByShutdown
    ensures Runs(u, [GiveUp(t.sent[n].call, Cancelled)], left) && left.calls == t.calls[t.sent[n].call := Done(Cancelled)]
    ensures Runs(u, [ReceiveNil(t.sent[n].call)], closed) && closed.calls == t.calls[t.sent[n].call := Done(ClosedChannel)]
  {
    u := CancelStops(start, t);
    left := CallerCanLeave(start, u, t.sent[n].call);
    ReachableIsSound(start, t);
    hide ChannelsSound, PendingSound, FatesSound, ResponsesSound, LimitsSound, Runs, Reachable;
    assert t.calls[t.sent[n].call] != Entered;
    closed := CallerSeesClosedChannel(start, u, t.sent[n].call);
  }

  /** A run in which a request is sent, its caller waits, the context is cancelled and the caller
      is handed a closed channel by the shutdown. */
  lemma ShutdownClosesPending(start: uint32) returns (t: State)
    ensures Reachable(start, t)
    ensures t.cancelled && !t.running && t.sent == [Sent(start, 0)]
    ensures t.calls == map[0 := Done(ClosedChannel)] && t.fates == map[0 := ClosedByShutdown]
  {
    var s := Init(start);
    Stay(start);
    CallQueues(start, s, 0);
    var a := SendsQueued(start, s.(calls := map[0 := Queued], sem := {0}, sendQueue := [0]), 0);
    CallParks(start, a, 0);
    var b := a.(calls := a.calls[0 := Waiting]);
    var c := CancelStops(start, b);
    PendingIs(b);
    t := CallerSeesClosedChannel(start, c, 0);
    Then(start, c, ReceiveNil(0), Apply(c, ReceiveNil(0)));
    AfterOne(c, ReceiveNil(0), t);
    OnlyFate(start, t);
    hide Reachable, Apply, Enabled;
  }

  lemma PendingIs(b: State)
    requires |b.sent| == 1 && b.pendingSend == map[b.sent[0].id := 0]
    ensures IsPending(b, 0)
  {}

  lemma AfterOne(c: State, e: Event, t: State)
    requires Runs(c, [e], t)
    ensures Enabled(c, e) && t == Apply(c, e)
  {
    assert [e][1..] == [];
  }

  lemma OnlyFate(start: uint32, t: State)
    requires Reachable(start, t) && |t.sent| == 1 && 0 in t.fates
    ensures t.fates == map[0 := t.fates[0]]
  {
    ReachableIsSound(start, t);
    assert forall n :: n in t.fates ==> n < 1;
  }

  // Serving.

  /** A caller that was let in can queue its message behind the others as long as there is room. */
  lemma CallerCanQueue(t: State, c: CallId) returns (u: State)
    requires InPhase(t, c, Entered) && |t.sendQueue| < 1024
    ensures Runs(t, [Enqueue(c)], u)
    ensures u == t.(calls := t.calls[c := Queued], sendQueue := t.sendQueue + [c])
  {
    u := Apply(t, Enqueue(c));
    OneStep(t, Enqueue(c));
  }

  /** The reader can queue the next response behind the others as long as there is room. */
  lemma ReaderCanQueue(t: State) returns (u: State)
    requires t.wire != [] && |t.recvQueue| < 1024
    ensures Runs(t, [Read(true)], u)
    ensures u == t.(wire := t.wire[1..], recvQueue := t.recvQueue + [t.wire[0]])
  {
    u := Apply(t, Read(true));
    OneStep(t, Read(true));
  }

  /** A response that waited too long for room is lost, and only that one. */
  lemma ReaderCanDrop(t: State) returns (u: State)
    requires t.wire != []
    ensures Runs(t, [Read(false)], u)
    ensures u == t.(wire := t.wire[1..])
  {
    u := Apply(t, Read(false));
    OneStep(t, Read(false));
  }

  /** A running dispatcher works off its send queue. */
  lemma {:induction false} DrainSends(start: uint32, t: State) returns (u: State)
    requires Reachable(start, t) && t.running
    ensures Reachable(start, u) && u.running && u.sendQueue == []
    ensures u.calls == t.calls && u.sem == t.sem
    decreases |t.sendQueue|
  {
    if t.sendQueue == [] {
      u := t;
    } else {
      var s := Apply(t, Send("", true, true));
      Then(start, t, Send("", true, true), s);
      u := DrainSends(start, s);
    }
  }

  /** Nothing is in flight, and no caller came in meanwhile. */
  ghost predicate Drained(t: State, u: State) {
    && u.running && u.sendQueue == [] && u.recvQueue == []
    && u.sem <= t.sem && u.calls.Keys == t.calls.Keys
  }

  lemma RecvDrains(s: State)
    requires s.running && s.recvQueue != [] && s.sendQueue == []
    requires s.pendingSend.Keys == s.disp.pending.Keys
    requires forall id :: id in s.disp.pending ==> s.disp.pending[id] in s.calls
    ensures var u := ApplyRecv(s);
            u.running && u.sendQueue == [] && u.recvQueue == s.recvQueue[1..] && u.wire == s.wire
    ensures ApplyRecv(s).sem <= s.sem && ApplyRecv(s).calls.Keys == s.calls.Keys
  {}

  /** A pending channel belongs to a caller the client knows. */
  lemma PendingCallsAreKnown(start: uint32, s: State)
    requires Reachable(start, s) && s.running
    ensures s.pendingSend.Keys == s.disp.pending.Keys
    ensures forall id :: id in s.disp.pending ==> s.disp.pending[id] in s.calls
  {
    ReachableIsSound(start, s);
    hide ChannelsSound, FatesSound, ResponsesSound, LimitsSound;
    forall id | id in s.disp.pending
      ensures s.disp.pending[id] in s.calls
    {
      assert s.sent[s.pendingSend[id]].call == s.disp.pending[id];
    }
  }

  lemma {:induction false} DrainRecvs(start: uint32, t: State) returns (u: State)
    requires Reachable(start, t) && t.running && t.sendQueue == []
    ensures Reachable(start, u) && Drained(t, u) && u.wire == t.wire
    decreases |t.recvQueue|
  {
    hide Reachable, ApplyRecv;
    if t.recvQueue == [] {
      u := t;
    } else {
      PendingCallsAreKnown(start, t);
      RecvDrains(t);
      Then(start, t, Recv, ApplyRecv(t));
      u := DrainRecvs(start, ApplyRecv(t));
    }
  }

  lemma {:induction false} DrainWire(start: uint32, t: State) returns (u: State)
    requires Reachable(start, t) && t.running && t.sendQueue == [] && t.recvQueue == []
    ensures Reachable(start, u) && Drained(t, u) && u.wire == []
    decreases |t.wire|
  {
    hide Reachable;
    if t.wire == [] {
      u := t;
    } else {
      var s := t.(wire := t.wire[1..], recvQueue := [t.wire[0]]);
      assert [] + [t.wire[0]] == [t.wire[0]];
      Then(start, t, Read(true), s);
      var v := DrainRecvs(start, s);
      u := DrainWire(start, v);
    }
  }

  /** However much is queued or in flight, the client can work it off. */
  lemma Drain(start: uint32, t: State) returns (u: State)
    requires Reachable(start, t) && t.running
    ensures Reachable(start, u) && Drained(t, u) && u.wire == []
  {
    hide Reachable;
    var a := DrainSends(start, t);
    var b := DrainRecvs(start, a);
    u := DrainWire(start, b);
  }

  /** A running client with a free semaphore slot can still serve a fresh call: there is a run
      that ends with that call holding the answer to its own request. */
  lemma FreshCallCanBeAnswered(start: uint32, t: State, c: CallId) returns (u: State, n: nat)
    requires Reachable(start, t) && t.running && c !in t.calls && |t.sem| < 1024
    ensures Reachable(start, u) && IsAnswered(u, c)
    ensures n < |u.sent| && u.sent[n].call == c && AnswerOf(u, c).origin == Answer(n)
  {
    hide Reachable, Apply, Enabled;
    var a := Drain(start, t);
    SubsetSize(a.sem, t.sem);
    CallQueues(start, a, c);
    var b := SendsQueued(start, a.(calls := a.calls[c := Queued], sem := a.sem + {c}, sendQueue := [c]), c);
    n := |a.sent|;
    var id := a.disp.idCounter;
    SentChannelIsOpen(start, b, n);
    CallParks(start, b, c);
    var d := b.(calls := b.calls[c := Waiting]);
    ResponseArrives(start, d, id, Answer(n));
    var r := Response(id, d.emitted, Answer(n));
    u := HeadIsDelivered(start, d.(recvQueue := [r], emitted := d.emitted + 1), r, c);
  }

  lemma SentChannelIsOpen(start: uint32, b: State, n: nat)
    requires Reachable(start, b) && b.running && n < |b.sent| && IsPending(b, n)
    ensures b.sent[n].call !in b.disp.closed
  {
    ReachableIsSound(start, b);
    hide ResponsesSound, LimitsSound;
    PendingIsUnanswered(start, b, n);
  }
}
