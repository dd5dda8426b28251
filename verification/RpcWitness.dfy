/** Runs that show where the client's guarantees end. */
module RpcWitness {
  import opened MachineInt
  import opened RpcDispatcher
  import opened RpcGuarantees
  import opened RpcProtocol
  import opened RpcSafety

  lemma Stay(start: uint32)
    ensures Reachable(start, Init(start))
  {
    assert Runs(Init(start), [], Init(start));
  }

  lemma Then(start: uint32, t: State, e: Event, u: State)
    requires Reachable(start, t) && Enabled(t, e) && u == Apply(t, e)
    ensures Reachable(start, u)
  {
    var events :| Runs(Init(start), events, t);
    hide Apply, Enabled;
    OneStep(t, e);
    RunsCompose(Init(start), events, t, [e], Apply(t, e));
  }

  lemma OneStep(t: State, e: Event)
    requires Enabled(t, e)
    ensures Runs(t, [e], Apply(t, e))
  {
    assert [e][1..] == [];
  }

  /** A fresh call acquires the semaphore and queues its message. */
  lemma CallQueues(start: uint32, t: State, c: CallId)
    requires Reachable(start, t) && c !in t.calls && |t.sem| < CONCURRENT_LIMIT && t.sendQueue == []
    ensures Reachable(start, t.(calls := t.calls[c := Queued], sem := t.sem + {c}, sendQueue := [c]))
  {
    var u := t.(calls := t.calls[c := Entered], sem := t.sem + {c});
    Then(start, t, Acquire(c), u);
    var v := t.(calls := t.calls[c := Queued], sem := t.sem + {c}, sendQueue := [c]);
    assert u.calls[c := Queued] == v.calls;
    Then(start, u, Enqueue(c), v);
  }

  /** The server emits one response and the reader queues it. */
  lemma ResponseArrives(start: uint32, t: State, id: uint32, origin: Origin)
    requires Reachable(start, t) && t.wire == [] && t.recvQueue == [] && CanEmit(t, id, origin)
    ensures Reachable(start, t.(recvQueue := [Response(id, t.emitted, origin)], emitted := t.emitted + 1))
  {
    hide Reachable;
    var r := Response(id, t.emitted, origin);
    var u := t.(wire := [r], emitted := t.emitted + 1);
    assert t.wire + [r] == [r];
    Then(start, t, Emit(id, origin), u);
    var v := t.(recvQueue := [r], emitted := t.emitted + 1);
    assert u.wire[1..] == [] && u.recvQueue + [u.wire[0]] == [r];
    Then(start, u, Read(true), v);
  }

  lemma SendsQueued(start: uint32, t: State, c: CallId) returns (u: State)
    requires Reachable(start, t) && t.running && t.sendQueue == [c]
    ensures Reachable(start, u)
    ensures u == t.(disp := t.disp.(idCounter := (t.disp.idCounter + 1) % TWO_32,
                                    pending := t.disp.pending[t.disp.idCounter := c],
                                    info := t.disp.info[t.disp.idCounter := ""]),
                    sendQueue := [],
                    sent := t.sent + [Sent(t.disp.idCounter, c)],
                    pendingSend := t.pendingSend[t.disp.idCounter := |t.sent|],
                    fates := u.fates)
    ensures t.disp.idCounter !in t.pendingSend ==> u.fates == t.fates
  {
    u := Apply(t, Send("", true, true));
    Then(start, t, Send("", true, true), u);
  }

  /** The dispatcher handles the only queued response while its caller is not parked. */
  lemma HeadIsDropped(start: uint32, t: State, r: Response, c: CallId) returns (u: State)
    requires Reachable(start, t) && t.running && t.recvQueue == [r]
    requires r.id in t.disp.pending && r.id in t.pendingSend && t.disp.pending[r.id] == c && c !in Parked(t)
    ensures Reachable(start, u)
    ensures u.calls == t.calls && u.disp.closed == t.disp.closed + {c} && u.cancelled == t.cancelled
    ensures u.sent == t.sent && u.emitted == t.emitted && u.fates == t.fates[t.pendingSend[r.id] := DroppedAndClosed(r, |t.sent|)]
  {
    u := Apply(t, Recv);
    Then(start, t, Recv, u);
  }

  /** The dispatcher handles the only queued response while its caller is parked. */
  lemma HeadIsDelivered(start: uint32, t: State, r: Response, c: CallId) returns (u: State)
    requires Reachable(start, t) && t.running && t.recvQueue == [r]
    requires r.id in t.disp.pending && r.id in t.pendingSend && t.disp.pending[r.id] == c && c in Parked(t)
    ensures Reachable(start, u)
    ensures u.calls == t.calls[c := Done(Answered(r))]
    ensures u.sent == t.sent && u.leaked == t.leaked
    ensures u.fates == t.fates[t.pendingSend[r.id] := HandedOver(r.serial, |t.sent|)]
  {
    u := Apply(t, Recv);
    Then(start, t, Recv, u);
  }

  /** A response that arrives before the caller is parked on its channel is dropped, and the
      caller sees a closed channel: no timeout, no cancellation and no misbehaving server is
      needed to lose an answer. */
  lemma EarlyResponseIsLost(start: uint32) returns (t: State)
    ensures Reachable(start, t)
    ensures !t.cancelled && t.sent == [Sent(start, 0)] && t.emitted == 1
    ensures t.calls == map[0 := Done(ClosedChannel)] && t.fates == map[0 := DroppedAndClosed(Response(start, 0, Answer(0)), 1)]
  {
    hide Reachable, Apply, Enabled;
    var s := Init(start);
    Stay(start);
    CallQueues(start, s, 0);
    var u := SendsQueued(start, s.(calls := map[0 := Queued], sem := {0}, sendQueue := [0]), 0);
    ResponseArrives(start, u, start, Answer(0));
    var r := Response(start, 0, Answer(0));
    var v := HeadIsDropped(start, u.(recvQueue := [r], emitted := 1), r, 0);
    t := v.(calls := v.calls[0 := Done(ClosedChannel)], sem := v.sem - {0});
    assert Enabled(v, ReceiveNil(0)) && t == Apply(v, ReceiveNil(0)) by { NilReceived(v, 0); }
    Then(start, v, ReceiveNil(0), t);
  }

  lemma NilReceived(v: State, c: CallId)
    requires InPhase(v, c, Queued) && c in v.disp.closed
    ensures Enabled(v, ReceiveNil(c))
    ensures Apply(v, ReceiveNil(c)) == v.(calls := v.calls[c := Done(ClosedChannel)], sem := v.sem - {c})
  {}

  /** A request whose encoding failed after reaching the server is not logged, so the next
      request reuses its ID and its caller is handed the other caller's answer. */
  lemma LeakedRequestIsMisanswered(start: uint32) returns (t: State)
    ensures Reachable(start, t)
    ensures t.sent == [Sent(start, 1)] && t.leaked == {0}
    ensures IsAnswered(t, 1) && AnswerOf(t, 1) == Response(start, 0, Leaked(0))
  {
    hide Reachable, Apply, Enabled;
    var s := Init(start);
    Stay(start);
    CallQueues(start, s, 0);
    var a := s.(calls := map[0 := Queued], sem := {0}, sendQueue := [0]);
    var b := s.(calls := map[0 := Queued], sem := {0}, leaked := {0});
    LeakingSend(start, a, b);
    CallQueues(start, b, 1);
    var c := SendsQueued(start, b.(calls := b.calls[1 := Queued], sem := {0} + {1}, sendQueue := [1]), 1);
    var d := c.(calls := c.calls[1 := Waiting]);
    CallParks(start, c, 1);
    ResponseArrives(start, d, start, Leaked(0));
    var r := Response(start, 0, Leaked(0));
    t := HeadIsDelivered(start, d.(recvQueue := [r], emitted := 1), r, 1);
  }

  lemma LeakingSend(start: uint32, a: State, b: State)
    requires Reachable(start, a) && a.running && |a.sendQueue| == 1
    requires b == a.(sendQueue := [], leaked := a.leaked + {a.sendQueue[0]})
    ensures Reachable(start, b)
  {
    hide Reachable;
    Then(start, a, Send("", false, true), b);
  }

  lemma CallParks(start: uint32, t: State, c: CallId)
    requires Reachable(start, t) && InPhase(t, c, Queued) && c !in t.disp.closed
    ensures Reachable(start, t.(calls := t.calls[c := Waiting]))
  {
    Then(start, t, Await(c), t.(calls := t.calls[c := Waiting]));
  }

  /** j requests have been sent in order by calls that then timed out; none was answered. */
  ghost predicate AfterTimeouts(start: uint32, t: State, j: nat) {
    && Reachable(start, t)
    && t.running && t.sem == {} && t.sendQueue == [] && t.recvQueue == [] && t.wire == []
    && t.disp.closed == {} && t.emitted == 0
    && t.disp.idCounter == (start + j) % TWO_32
    && (forall c :: c in t.calls ==> c < j)
    && |t.sent| == j
    && (j > 0 ==> t.sent[0] == Sent(start, 0))
  }

  lemma AnotherTimeout(start: uint32, t: State, j: nat) returns (u: State)
    requires AfterTimeouts(start, t, j)
    ensures AfterTimeouts(start, u, j + 1)
  {
    hide Reachable, Apply, Enabled;
    CallQueues(start, t, j);
    var v := SendsQueued(start, t.(calls := t.calls[j := Queued], sem := t.sem + {j}, sendQueue := [j]), j);
    u := v.(calls := v.calls[j := Done(TimedOut)], sem := v.sem - {j});
    CallTimesOut(start, v, j);
    NextId(start, j);
  }

  lemma CallTimesOut(start: uint32, t: State, c: CallId)
    requires Reachable(start, t) && InPhase(t, c, Queued)
    ensures Reachable(start, t.(calls := t.calls[c := Done(TimedOut)], sem := t.sem - {c}))
  {
    Then(start, t, GiveUp(c, TimedOut), t.(calls := t.calls[c := Done(TimedOut)], sem := t.sem - {c}));
  }

  lemma {:induction false} ManyTimeouts(start: uint32, j: nat) returns (t: State)
    ensures AfterTimeouts(start, t, j)
  {
    if j == 0 {
      Stay(start);
      t := Init(start);
    } else {
      var u := ManyTimeouts(start, j - 1);
      t := AnotherTimeout(start, u, j - 1);
    }
  }

  /** The bound of 2^32 sends is exact: one send more, and a late answer to the first request
      is handed to the caller whose request reused its ID. */
  lemma LateAnswerIsMisdelivered(start: uint32) returns (t: State)
    ensures Reachable(start, t)
    ensures |t.sent| == TWO_32 + 1 && t.sent[0] == Sent(start, 0) && t.sent[TWO_32] == Sent(start, TWO_32)
    ensures IsAnswered(t, TWO_32) && AnswerOf(t, TWO_32) == Response(start, 0, Answer(0))
  {
    hide Reachable, Apply, Enabled;
    var a := ManyTimeouts(start, TWO_32);
    var c: nat := TWO_32;
    CallQueues(start, a, c);
    var b := SendsQueued(start, a.(calls := a.calls[c := Queued], sem := a.sem + {c}, sendQueue := [c]), c);
    CallParks(start, b, c);
    var d := b.(calls := b.calls[c := Waiting]);
    assert d.sent[0] == a.sent[0];
    ResponseArrives(start, d, start, Answer(0));
    var r := Response(start, 0, Answer(0));
    t := HeadIsDelivered(start, d.(recvQueue := [r], emitted := 1), r, c);
  }
}
