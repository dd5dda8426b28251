/** What the client guarantees in every reachable state, for every interleaving. */
module RpcGuarantees {
  import opened MachineInt
  import opened RpcDispatcher
  import opened RpcLeaks
  import opened RpcProtocol
  import opened RpcSafety

  ghost predicate Reachable(start: uint32, t: State) {
    exists events :: Runs(Init(start), events, t)
  }

  lemma ReachableIsSound(start: uint32, t: State)
    requires Reachable(start, t)
    ensures Inv(start, t)
  {
    hide Inv;
    var events :| Runs(Init(start), events, t);
    InitSound(start);
    RunKeeps(start, Init(start), events, t);
  }

  /** No channel is ever closed twice or sent on after close, whatever the server sends and
      even when the counter wraps; both maps agree; pending channels are distinct and open. */
  lemma NeverPanics(start: uint32, t: State)
    requires Reachable(start, t)
    ensures !t.disp.panicked
    ensures t.disp.pending.Keys == t.disp.info.Keys
    ensures Injective(t.disp.pending)
    ensures t.running ==> forall id :: id in t.disp.pending ==> t.disp.pending[id] !in t.disp.closed
  {
    ReachableIsSound(start, t);
  }

  /** The n-th successful send carries start + n modulo 2^32, and no call sends twice. */
  lemma SendsAreNumbered(start: uint32, t: State, n: nat)
    requires Reachable(start, t) && n < |t.sent|
    ensures t.sent[n].id == (start + n) % TWO_32
    ensures forall m: nat :: m < |t.sent| && t.sent[m].call == t.sent[n].call ==> m == n
  {
    ReachableIsSound(start, t);
  }

  /** A response returned to a caller carries the ID of the caller's own request. If it was
      meant for a logged send, it answers the caller's own exactly when no more than 2^32 sends
      were logged from the one it was meant for up to the hand-over. */
  lemma AnsweredByOwnResponse(start: uint32, t: State, call: CallId) returns (n: nat, sends: nat)
    requires Reachable(start, t) && IsAnswered(t, call)
    ensures n < |t.sent| && t.sent[n].call == call && n < sends <= |t.sent|
    ensures AnswerOf(t, call).id == t.sent[n].id
    ensures n in t.fates && t.fates[n] == HandedOver(AnswerOf(t, call).serial, sends)
    ensures AnswerOf(t, call).origin.Answer? ==>
              (sends <= AnswerOf(t, call).origin.send + TWO_32 <==> AnswerOf(t, call).origin.send == n)
  {
    ReachableIsSound(start, t);
    hide ChannelsSound, SendLogSound, PendingSound, ResponsesSound, LimitsSound;
    n :| n < |t.sent| && t.sent[n].call == call && n in t.fates && t.fates[n].HandedOver?;
    assert FateHolds(t, n);
    sends := t.fates[n].sends;
  }

  lemma ReachableLeaks(start: uint32, t: State)
    requires Reachable(start, t)
    ensures LeakSound(t)
  {
    hide Inv, LeakSound;
    var events :| Runs(Init(start), events, t);
    InitSound(start);
    InitLeakSound(start);
    RunKeepsLeaks(start, Init(start), events, t);
  }

  /** An answer to a request that was never logged is always another caller's, and there is one
      only if such a request was leaked: a run that leaks nothing has none. */
  lemma LeakedAnswerIsForeign(start: uint32, t: State, call: CallId)
    requires Reachable(start, t) && IsAnswered(t, call) && AnswerOf(t, call).origin.Leaked?
    ensures AnswerOf(t, call).origin.call in t.leaked && AnswerOf(t, call).origin.call != call
  {
    ReachableLeaks(start, t);
    var n, sends := AnsweredByOwnResponse(start, t, call);
    assert NamesLeaked(t, AnswerOf(t, call));
    hide Reachable;
  }

  /** A caller that was told its channel is closed has had it closed. */
  ghost predicate ToldClosedIsClosed(s: State) {
    forall c :: InPhase(s, c, Done(ClosedChannel)) ==> c in s.disp.closed
  }

  lemma ToldClosedStep(s: State, e: Event)
    requires ToldClosedIsClosed(s) && Enabled(s, e)
    ensures ToldClosedIsClosed(Apply(s, e))
  {}

  lemma {:induction false} ToldClosedRun(s: State, events: seq<Event>, t: State)
    requires ToldClosedIsClosed(s) && Runs(s, events, t)
    ensures ToldClosedIsClosed(t)
    decreases |events|
  {
    hide ToldClosedIsClosed, Apply, Enabled;
    if events != [] {
      ToldClosedStep(s, events[0]);
      ToldClosedRun(Apply(s, events[0]), events[1..], t);
    }
  }

  /** What a caller may conclude from a closed channel: its request was sent, and either a
      response under its ID came and was dropped, which was the answer to that very request
      under the same condition as for an answer handed over, or the client shut down first. */
  lemma ClosedChannelMeansLost(start: uint32, t: State, call: CallId) returns (n: nat)
    requires Reachable(start, t) && InPhase(t, call, Done(ClosedChannel))
    ensures n < |t.sent| && t.sent[n].call == call && n in t.fates
    ensures t.fates[n].DroppedAndClosed? || (t.fates[n] == ClosedByShutdown && !t.running)
    ensures t.fates[n].DroppedAndClosed? ==> t.fates[n].resp.id == t.sent[n].id && t.fates[n].resp.serial < t.emitted
    ensures t.fates[n].DroppedAndClosed? && t.fates[n].resp.origin.Answer? ==>
              (t.fates[n].sends <= t.fates[n].resp.origin.send + TWO_32 <==> t.fates[n].resp.origin.send == n)
  {
    ReachableIsSound(start, t);
    var events :| Runs(Init(start), events, t);
    ToldClosedRun(Init(start), events, t);
    hide ChannelsSound, PendingSound, ResponsesSound, LimitsSound, FatesSound, Runs;
    n :| n < |t.sent| && t.sent[n].call == call;
    hide SendLogSound;
    if IsPending(t, n) {
      PendingAfterShutdown(start, t, n);
    }
    FateOfUnpending(t, n);
  }

  lemma FateOfUnpending(t: State, n: nat)
    requires FatesSound(t) && n < |t.sent| && !IsPending(t, n)
    ensures n in t.fates && FateHolds(t, n)
  {}

  /** No response reaches two callers. */
  lemma NoResponseReachesTwoCallers(start: uint32, t: State, c: CallId, d: CallId)
    requires Reachable(start, t) && IsAnswered(t, c) && IsAnswered(t, d)
    requires AnswerOf(t, c).serial == AnswerOf(t, d).serial
    ensures c == d
  {
    ReachableIsSound(start, t);
    hide ChannelsSound, SendLogSound, PendingSound, FatesSound, LimitsSound;
  }

  /** At most 1024 callers are inside the section guarded by the semaphore. */
  lemma ConcurrencyIsLimited(start: uint32, t: State, callers: set<CallId>)
    requires Reachable(start, t)
    requires forall c :: c in callers ==> Active(t, c)
    ensures |callers| <= 1024
  {
    ReachableIsSound(start, t);
    hide ChannelsSound, SendLogSound, PendingSound, FatesSound, ResponsesSound;
    assert callers <= t.sem;
    SubsetSize(callers, t.sem);
  }

  lemma {:induction false} SubsetSize(a: set<CallId>, b: set<CallId>)
    requires a <= b
    ensures |a| <= |b|
  {
    if a != {} {
      var x :| x in a;
      SubsetSize(a - {x}, b - {x});
    }
  }

  // Conservation.

  ghost predicate WasDelivered(t: State, n: nat)
    requires n < |t.sent|
  {
    IsAnswered(t, t.sent[n].call) && t.sent[n].call in t.disp.closed
  }

  ghost predicate WasDropped(t: State, n: nat)
    requires n < |t.sent|
  {
    !IsAnswered(t, t.sent[n].call) && t.sent[n].call in t.disp.closed && n in t.fates && t.fates[n].DroppedAndClosed?
  }

  ghost predicate WasShutDown(t: State, n: nat)
    requires n < |t.sent|
  {
    !IsAnswered(t, t.sent[n].call) && t.sent[n].call in t.disp.closed && n in t.fates && t.fates[n] == ClosedByShutdown
  }

  /** The entry was replaced before any response came: the channel stays open for ever. */
  ghost predicate WasOverwritten(t: State, n: nat)
    requires n < |t.sent|
  {
    !IsAnswered(t, t.sent[n].call) && t.sent[n].call !in t.disp.closed && !IsPending(t, n)
  }

  function Count(b: bool): nat {
    if b then 1 else 0
  }

  /** Every successful send is in exactly one of five states: pending, delivered, dropped and
      closed, closed by shutdown, or overwritten after 2^32 further sends. */
  lemma SendsAreConserved(start: uint32, t: State, n: nat)
    requires Reachable(start, t) && n < |t.sent|
    ensures Count(IsPending(t, n)) + Count(WasDelivered(t, n)) + Count(WasDropped(t, n))
          + Count(WasShutDown(t, n)) + Count(WasOverwritten(t, n)) == 1
    ensures WasOverwritten(t, n) ==> n + TWO_32 < |t.sent|
  {
    ReachableIsSound(start, t);
    assert n in t.fates <==> !IsPending(t, n);
    if IsPending(t, n) {
      PendingAfterShutdown(start, t, n);
    } else {
      assert FateHolds(t, n);
    }
    hide ChannelsSound, SendLogSound, PendingSound, FatesSound, ResponsesSound, LimitsSound;
  }

  lemma PendingAfterShutdown(start: uint32, t: State, n: nat)
    requires Inv(start, t) && n < |t.sent| && IsPending(t, n)
    ensures !IsAnswered(t, t.sent[n].call) && t.sent[n].call !in t.disp.closed
  {
    hide FatesSound, ResponsesSound, LimitsSound;
    assert t.running;
    PendingIsUnanswered(start, t, n);
  }

  /** Fewer than 2^32 sends have succeeded while any entry is pending. */
  ghost predicate WithinWindow(s: State) {
    forall n: nat :: IsPending(s, n) ==> |s.sent| < n + TWO_32
  }

  ghost predicate RunsWithinWindow(s: State, events: seq<Event>, t: State)
    decreases |events|
  {
    && WithinWindow(s)
    && if events == [] then s == t
       else Enabled(s, events[0]) && RunsWithinWindow(Apply(s, events[0]), events[1..], t)
  }

  ghost predicate NothingOverwritten(s: State) {
    forall n :: n in s.fates ==> !s.fates[n].Overwritten?
  }

  lemma WindowStep(start: uint32, s: State, e: Event)
    requires Inv(start, s) && Enabled(s, e) && WithinWindow(s) && NothingOverwritten(s)
    ensures NothingOverwritten(Apply(s, e))
  {
    hide ChannelsSound, SendLogSound, PendingSound, FatesSound, ResponsesSound, LimitsSound, WithinWindow;
    ReuseBreaksWindow(start, s);
  }

  lemma ReuseBreaksWindow(start: uint32, s: State)
    requires SendLogSound(start, s) && PendingSound(s)
    ensures WithinWindow(s) ==> s.disp.idCounter !in s.pendingSend
  {
    if s.disp.idCounter in s.pendingSend {
      hide SendLogSound, PendingSound;
      ReuseIsFar(start, s);
      EntryIsPending(s, s.disp.idCounter);
    }
  }

  /** As long as the window is respected, every send is in exactly one of the first four. */
  lemma {:induction false} WithinWindowNothingIsOverwritten(start: uint32, s: State, events: seq<Event>, t: State)
    requires Inv(start, s) && NothingOverwritten(s) && RunsWithinWindow(s, events, t)
    ensures NothingOverwritten(t)
    decreases |events|
  {
    hide Inv, NothingOverwritten, WithinWindow;
    if events != [] {
      WindowStep(start, s, events[0]);
      StepKeeps(start, s, events[0]);
      WithinWindowNothingIsOverwritten(start, Apply(s, events[0]), events[1..], t);
    }
  }

  lemma {:induction false} WindowRunIsRun(s: State, events: seq<Event>, t: State)
    requires RunsWithinWindow(s, events, t)
    ensures Runs(s, events, t)
    decreases |events|
  {
    hide WithinWindow, Apply, Enabled;
    if events != [] {
      WindowRunIsRun(Apply(s, events[0]), events[1..], t);
    }
  }

  /** In any run that keeps fewer than 2^32 sends beside every pending entry, each successful
      send is pending, delivered, dropped and closed, or closed by shutdown, and only one. */
  lemma SendsAreConservedWithinWindow(start: uint32, events: seq<Event>, t: State, n: nat)
    requires RunsWithinWindow(Init(start), events, t) && n < |t.sent|
    ensures Count(IsPending(t, n)) + Count(WasDelivered(t, n)) + Count(WasDropped(t, n)) + Count(WasShutDown(t, n)) == 1
  {
    hide ChannelsSound, SendLogSound, PendingSound, ResponsesSound, LimitsSound, FatesSound, RunsWithinWindow, Runs;
    InitSound(start);
    WindowRunIsRun(Init(start), events, t);
    WithinWindowNothingIsOverwritten(start, Init(start), events, t);
    SendsAreConserved(start, t, n);
    ReachableIsSound(start, t);
    OverwrittenIsRecorded(t, n);
    hide WasDelivered, WasDropped, WasShutDown, WasOverwritten, IsPending, Reachable, NothingOverwritten;
  }

  lemma OverwrittenIsRecorded(t: State, n: nat)
    requires FatesSound(t) && NothingOverwritten(t) && n < |t.sent|
    ensures !WasOverwritten(t, n)
  {
    if !IsPending(t, n) {
      assert n in t.fates && FateHolds(t, n);
    }
  }
}
