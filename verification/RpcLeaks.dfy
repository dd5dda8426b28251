/** Requests whose encoding failed after they had reached the server: what a response to one
    can mean. */
module RpcLeaks {
  import opened MachineInt
  import opened RpcDispatcher
  import opened RpcProtocol
  import opened RpcSafety

  /** A leaked call's message left the queue and was never logged. */
  ghost predicate LeakedNotSent(s: State) {
    forall c :: c in s.leaked ==>
      && c in s.calls && s.calls[c] != Entered
      && c !in s.sendQueue
      && forall n :: 0 <= n < |s.sent| ==> s.sent[n].call != c
  }

  predicate NamesLeaked(s: State, r: Response) {
    r.origin.Leaked? ==> r.origin.call in s.leaked
  }

  /** Responses said to answer a leaked call do. */
  ghost predicate LeaksNamed(s: State) {
    && (forall r :: r in s.recvQueue ==> NamesLeaked(s, r))
    && (forall r :: r in s.wire ==> NamesLeaked(s, r))
    && (forall c :: IsAnswered(s, c) ==> NamesLeaked(s, AnswerOf(s, c)))
  }

  ghost predicate LeakSound(s: State) {
    LeakedNotSent(s) && LeaksNamed(s)
  }

  lemma InitLeakSound(start: uint32)
    ensures LeakSound(Init(start))
  {}

  lemma StepKeepsLeakedNotSent(start: uint32, s: State, e: Event)
    requires SendLogSound(start, s) && LeakedNotSent(s) && Enabled(s, e)
    ensures LeakedNotSent(Apply(s, e))
  {
    if e.Send? {
      SendKeepsLeakedNotSent(start, s, e);
    }
  }

  /** The call at the head of the queue is there only once and was never sent. */
  lemma HeadIsUnsent(start: uint32, s: State)
    requires SendLogSound(start, s) && s.sendQueue != []
    ensures s.sendQueue[0] in s.calls && s.calls[s.sendQueue[0]] != Entered
    ensures s.sendQueue[0] !in s.sendQueue[1..]
    ensures forall n :: 0 <= n < |s.sent| ==> s.sent[n].call != s.sendQueue[0]
  {
    assert s.sendQueue[0] in s.sendQueue;
    assert forall i :: 0 <= i < |s.sendQueue| - 1 ==> s.sendQueue[1..][i] == s.sendQueue[i + 1];
  }

  lemma SendKeepsLeakedNotSent(start: uint32, s: State, e: Event)
    requires SendLogSound(start, s) && LeakedNotSent(s) && Enabled(s, e) && e.Send?
    ensures LeakedNotSent(Apply(s, e))
  {
    HeadIsUnsent(start, s);
    hide SendLogSound, HandleSend;
    assert s.sendQueue[0] in s.sendQueue;
    assert forall c :: c in s.sendQueue[1..] ==> c in s.sendQueue;
  }

  /** Where a response in flight or with a caller can come from. */
  ghost predicate Traced(s: State, t: State) {
    && s.leaked <= t.leaked
    && (forall r :: r in t.recvQueue || r in t.wire ==> r in s.recvQueue || r in s.wire || NamesLeaked(t, r))
    && (forall c :: IsAnswered(t, c) ==>
          (IsAnswered(s, c) && AnswerOf(t, c) == AnswerOf(s, c)) || AnswerOf(t, c) in s.recvQueue)
  }

  lemma TracedKeeps(s: State, t: State)
    requires LeaksNamed(s) && Traced(s, t)
    ensures LeaksNamed(t)
  {}

  lemma CallersAreTraced(s: State, e: Event)
    requires Enabled(s, e) && (IsCallerStep(e) || e.Send? || e.Shutdown?)
    ensures Traced(s, Apply(s, e))
  {
    assert forall c :: IsAnswered(Apply(s, e), c) ==> IsAnswered(s, c) && AnswerOf(Apply(s, e), c) == AnswerOf(s, c);
  }

  lemma TrafficIsTraced(s: State, e: Event)
    requires Enabled(s, e) && (e.Emit? || e.Read?)
    ensures Traced(s, Apply(s, e))
  {}

  lemma RecvIsTraced(s: State, e: Event)
    requires Enabled(s, e) && e.Recv?
    ensures Traced(s, Apply(s, e))
  {
    assert s.recvQueue[0] in s.recvQueue;
  }

  lemma StepKeepsLeaksNamed(s: State, e: Event)
    requires LeaksNamed(s) && Enabled(s, e)
    ensures LeaksNamed(Apply(s, e))
  {
    hide LeaksNamed, Traced, Apply, Enabled;
    if e.Emit? || e.Read? {
      TrafficIsTraced(s, e);
    } else if e.Recv? {
      RecvIsTraced(s, e);
    } else {
      CallersAreTraced(s, e);
    }
    TracedKeeps(s, Apply(s, e));
  }

  lemma {:induction false} RunKeepsLeaks(start: uint32, s: State, events: seq<Event>, t: State)
    requires Inv(start, s) && LeakSound(s) && Runs(s, events, t)
    ensures LeakSound(t)
    decreases |events|
  {
    hide LeakedNotSent, LeaksNamed, ChannelsSound, SendLogSound, PendingSound, FatesSound, ResponsesSound, LimitsSound, Apply, Enabled;
    if events != [] {
      StepKeepsLeakedNotSent(start, s, events[0]);
      StepKeepsLeaksNamed(s, events[0]);
      StepKeeps(start, s, events[0]);
      RunKeepsLeaks(start, Apply(s, events[0]), events[1..], t);
    }
  }
}
