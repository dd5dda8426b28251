/** What every reachable state of the client satisfies. */
module RpcSafety {
  import opened MachineInt
  import opened RpcDispatcher
  import opened RpcProtocol

  /** The n-th successful send still has its entry in the pending map. */
  predicate IsPending(s: State, n: nat) {
    n < |s.sent| && s.sent[n].id in s.pendingSend && s.pendingSend[s.sent[n].id] == n
  }

  predicate IsAnswered(s: State, call: CallId) {
    call in s.calls && s.calls[call].Done? && s.calls[call].outcome.Answered?
  }

  function AnswerOf(s: State, call: CallId): Response
    requires IsAnswered(s, call)
  {
    s.calls[call].outcome.resp
  }

  /** No panic; both maps have the same keys; pending channels are pairwise distinct and open. */
  ghost predicate ChannelsSound(s: State) {
    && !s.disp.panicked
    && s.disp.pending.Keys == s.disp.info.Keys
    && Injective(s.disp.pending)
    && (s.running ==> forall id :: id in s.disp.pending ==> s.disp.pending[id] !in s.disp.closed)
  }

  /** Send n carried start + n modulo 2^32; each call sends at most once, after queueing once. */
  ghost predicate SendLogSound(start: uint32, s: State) {
    && s.disp.idCounter == (start + |s.sent|) % TWO_32
    && (forall n :: 0 <= n < |s.sent| ==> s.sent[n].id == (start + n) % TWO_32)
    && (forall n :: 0 <= n < |s.sent| ==> s.sent[n].call in s.calls && s.calls[s.sent[n].call] != Entered)
    && (forall n, m :: 0 <= n < |s.sent| && 0 <= m < |s.sent| && s.sent[n].call == s.sent[m].call ==> n == m)
    && (forall i :: 0 <= i < |s.sendQueue| ==> s.sendQueue[i] in s.calls && s.calls[s.sendQueue[i]] != Entered)
    && (forall i, j :: 0 <= i < |s.sendQueue| && 0 <= j < |s.sendQueue| && s.sendQueue[i] == s.sendQueue[j] ==> i == j)
    && (forall n :: 0 <= n < |s.sent| ==> s.sent[n].call !in s.sendQueue)
    && (forall c :: c in s.disp.closed ==> exists n :: 0 <= n < |s.sent| && s.sent[n].call == c)
  }

  /** While the dispatcher runs, a pending entry belongs to the latest send with its ID. */
  ghost predicate PendingSound(s: State) {
    && (s.running ==> s.pendingSend.Keys == s.disp.pending.Keys)
    && (!s.running ==> s.pendingSend == map[])
    && (forall id :: id in s.pendingSend ==>
          && s.pendingSend[id] < |s.sent|
          && id in s.disp.pending
          && s.sent[s.pendingSend[id]] == Sent(id, s.disp.pending[id]))
    && (forall id, m :: id in s.pendingSend && 0 <= m < |s.sent| && s.sent[m].id == id ==> m <= s.pendingSend[id])
  }

  /** A response to a logged send answers send n exactly when it was handed over within 2^32
      sends of the send it was meant for. */
  predicate Matches(r: Response, n: nat, sends: nat) {
    r.origin.Answer? ==> (sends <= r.origin.send + TWO_32 <==> r.origin.send == n)
  }

  /** What it means, in terms of the caller and the channel, that send n met its fate. */
  ghost predicate FateHolds(s: State, n: nat)
    requires n < |s.sent| && n in s.fates
  {
    var call := s.sent[n].call;
    match s.fates[n]
    case HandedOver(serial, sends) =>
      && IsAnswered(s, call) && call in s.disp.closed
      && AnswerOf(s, call).id == s.sent[n].id && AnswerOf(s, call).serial == serial
      && n < sends <= |s.sent|
      && Matches(AnswerOf(s, call), n, sends)
    case DroppedAndClosed(resp, sends) =>
      && !IsAnswered(s, call) && call in s.disp.closed
      && resp.id == s.sent[n].id && resp.serial < s.emitted
      && n < sends <= |s.sent|
      && Matches(resp, n, sends)
    case ClosedByShutdown => !IsAnswered(s, call) && call in s.disp.closed && !s.running
    case Overwritten(send) => !IsAnswered(s, call) && call !in s.disp.closed && n + TWO_32 <= send < |s.sent|
  }

  /** A fate that is kept stays true when the caller's answer and channel are kept. */
  lemma FateCarries(s: State, t: State, n: nat)
    requires n < |s.sent| <= |t.sent| && t.sent[n] == s.sent[n]
    requires n in s.fates && n in t.fates && t.fates[n] == s.fates[n] && FateHolds(s, n)
    requires IsAnswered(t, s.sent[n].call) <==> IsAnswered(s, s.sent[n].call)
    requires IsAnswered(s, s.sent[n].call) ==> AnswerOf(t, s.sent[n].call) == AnswerOf(s, s.sent[n].call)
    requires s.sent[n].call in t.disp.closed <==> s.sent[n].call in s.disp.closed
    requires (t.running ==> s.running) && s.emitted <= t.emitted
    ensures FateHolds(t, n)
  {}

  /** Every send is pending or has met one fate, and only answered sends have answered callers. */
  ghost predicate FatesSound(s: State) {
    && (forall n :: n in s.fates ==> n < |s.sent|)
    && (forall n: nat :: n < |s.sent| ==> (n in s.fates <==> !IsPending(s, n)))
    && (forall n: nat :: n < |s.sent| && n in s.fates ==> FateHolds(s, n))
    && (forall c :: IsAnswered(s, c) ==>
          exists n: nat :: n < |s.sent| && s.sent[n].call == c && n in s.fates && s.fates[n].HandedOver?)
  }

  ghost predicate Ordered(rs: seq<Response>) {
    forall i, j :: 0 <= i < j < |rs| ==> rs[i].serial < rs[j].serial
  }

  /** Responses in flight are in emission order, and those already returned came before them. */
  ghost predicate ResponsesSound(s: State) {
    var flight := s.recvQueue + s.wire;
    && Ordered(flight)
    && (forall i :: 0 <= i < |flight| ==> flight[i].serial < s.emitted)
    && (forall i :: 0 <= i < |flight| && flight[i].origin.Answer? ==>
          flight[i].origin.send < |s.sent| && s.sent[flight[i].origin.send].id == flight[i].id)
    && (forall c :: IsAnswered(s, c) ==> AnswerOf(s, c).serial < s.emitted)
    && (forall c, i :: IsAnswered(s, c) && 0 <= i < |flight| ==> AnswerOf(s, c).serial < flight[i].serial)
    && (forall c, d :: IsAnswered(s, c) && IsAnswered(s, d) && AnswerOf(s, c).serial == AnswerOf(s, d).serial ==> c == d)
  }

  /** The semaphore is held by exactly the callers inside the guarded section. */
  ghost predicate LimitsSound(s: State) {
    && |s.sem| <= CONCURRENT_LIMIT
    && (forall c :: c in s.sem <==> Active(s, c))
    && |s.sendQueue| <= CONCURRENT_LIMIT
    && |s.recvQueue| <= CONCURRENT_LIMIT
  }

  ghost predicate Inv(start: uint32, s: State) {
    && ChannelsSound(s)
    && SendLogSound(start, s)
    && PendingSound(s)
    && FatesSound(s)
    && ResponsesSound(s)
    && LimitsSound(s)
  }

  lemma InitDispatcherSound(start: uint32)
    ensures ChannelsSound(Init(start)) && SendLogSound(start, Init(start)) && PendingSound(Init(start))
  {}

  lemma InitHistorySound(start: uint32)
    ensures FatesSound(Init(start)) && ResponsesSound(Init(start)) && LimitsSound(Init(start))
  {}

  lemma InitSound(start: uint32)
    ensures Inv(start, Init(start))
  {
    hide ChannelsSound, SendLogSound, PendingSound, FatesSound, ResponsesSound, LimitsSound;
    InitDispatcherSound(start);
    InitHistorySound(start);
  }

  /** Nothing but the callers changed, nobody was answered, and nobody who queued un-queued. */
  ghost predicate OnlyCallersMoved(s: State, t: State) {
    && t.disp == s.disp && t.running == s.running
    && t.sent == s.sent && t.pendingSend == s.pendingSend && t.fates == s.fates
    && t.recvQueue == s.recvQueue && t.wire == s.wire && t.emitted == s.emitted
    && (forall c :: IsAnswered(t, c) <==> IsAnswered(s, c))
    && (forall c :: IsAnswered(s, c) ==> AnswerOf(t, c) == AnswerOf(s, c))
    && (forall c :: c in s.calls && s.calls[c] != Entered ==> c in t.calls && t.calls[c] != Entered)
  }

  predicate IsCallerStep(e: Event) {
    e.Acquire? || e.Enqueue? || e.Await? || e.GiveUp? || e.ReceiveNil? || e.Cancel?
  }

  lemma CallerStepMoves(s: State, e: Event)
    requires Enabled(s, e) && IsCallerStep(e)
    ensures OnlyCallersMoved(s, Apply(s, e))
  {}

  lemma CallerStepKeepsLog(start: uint32, s: State, e: Event)
    requires SendLogSound(start, s) && Enabled(s, e) && IsCallerStep(e)
    requires OnlyCallersMoved(s, Apply(s, e))
    ensures SendLogSound(start, Apply(s, e))
  {}

  lemma CallersMoveKeepsFates(s: State, t: State)
    requires FatesSound(s) && OnlyCallersMoved(s, t)
    ensures FatesSound(t)
  {
    forall n: nat
      ensures IsPending(t, n) <==> IsPending(s, n)
      ensures n < |s.sent| && n in s.fates && FateHolds(s, n) ==> FateHolds(t, n)
    {}
  }

  lemma CallersMoveKeepsResponses(s: State, t: State)
    requires ResponsesSound(s) && OnlyCallersMoved(s, t)
    ensures ResponsesSound(t)
  {}

  lemma CallerStepKeepsLimits(s: State, e: Event)
    requires LimitsSound(s) && Enabled(s, e) && IsCallerStep(e)
    ensures LimitsSound(Apply(s, e))
  {
    if e.GiveUp? || e.ReceiveNil? {
      FinishKeepsLimits(s, e.call, if e.GiveUp? then e.outcome else ClosedChannel);
      hide LimitsSound;
    }
  }

  lemma FinishKeepsLimits(s: State, call: CallId, outcome: Outcome)
    requires LimitsSound(s)
    ensures LimitsSound(Finish(s, call, outcome))
  {
    var t := Finish(s, call, outcome);
    assert forall c :: Active(t, c) <==> Active(s, c) && c != call;
  }

  lemma CallersMoveKeepsDispatcher(s: State, t: State)
    requires ChannelsSound(s) && PendingSound(s) && OnlyCallersMoved(s, t)
    ensures ChannelsSound(t) && PendingSound(t)
  {}

  lemma CallerStepKeeps(start: uint32, s: State, e: Event)
    requires Inv(start, s) && Enabled(s, e) && IsCallerStep(e)
    ensures Inv(start, Apply(s, e))
  {
    hide ChannelsSound, PendingSound, FatesSound, ResponsesSound, SendLogSound, LimitsSound, OnlyCallersMoved, Apply, Enabled;
    CallerStepMoves(s, e);
    CallerStepKeepsLog(start, s, e);
    CallersMoveKeepsDispatcher(s, Apply(s, e));
    CallersMoveKeepsFates(s, Apply(s, e));
    CallersMoveKeepsResponses(s, Apply(s, e));
    CallerStepKeepsLimits(s, e);
  }

  // Traffic between the server and the reader.

  /** Only the responses in flight changed. */
  ghost predicate OnlyTrafficMoved(s: State, t: State) {
    t == s.(wire := t.wire, recvQueue := t.recvQueue, emitted := t.emitted)
  }

  lemma TrafficKeepsFates(s: State, t: State)
    requires FatesSound(s) && OnlyTrafficMoved(s, t) && s.emitted <= t.emitted
    ensures FatesSound(t)
  {
    forall n: nat
      ensures IsPending(t, n) <==> IsPending(s, n)
      ensures n < |s.sent| && n in s.fates && FateHolds(s, n) ==> FateHolds(t, n)
    {}
    assert forall c :: IsAnswered(t, c) <==> IsAnswered(s, c);
  }

  /** A flight that lost at most one response is still sound. */
  lemma FlightKeeps(s: State, t: State, k: nat)
    requires ResponsesSound(s) && OnlyTrafficMoved(s, t)
    requires var before, after := s.recvQueue + s.wire, t.recvQueue + t.wire;
             after == before || (k < |before| && after == before[..k] + before[k + 1..])
    requires t.emitted == s.emitted
    ensures ResponsesSound(t)
  {
    var before, after := s.recvQueue + s.wire, t.recvQueue + t.wire;
    if after != before {
      assert forall i :: 0 <= i < |after| ==> after[i] == before[if i < k then i else i + 1];
    }
    assert forall c :: IsAnswered(t, c) <==> IsAnswered(s, c);
    assert forall c :: IsAnswered(t, c) ==> AnswerOf(t, c) == AnswerOf(s, c);
  }

  lemma EmitKeepsResponses(s: State, t: State, r: Response)
    requires ResponsesSound(s) && OnlyTrafficMoved(s, t)
    requires t.recvQueue == s.recvQueue && t.wire == s.wire + [r] && t.emitted == s.emitted + 1
    requires r.serial == s.emitted && CanEmit(s, r.id, r.origin)
    ensures ResponsesSound(t)
  {
    var before, after := s.recvQueue + s.wire, t.recvQueue + t.wire;
    assert after == before + [r];
    assert forall c :: IsAnswered(t, c) <==> IsAnswered(s, c);
    assert forall c :: IsAnswered(t, c) ==> AnswerOf(t, c) == AnswerOf(s, c);
  }

  lemma EmitKeepsFlight(s: State, e: Event)
    requires ResponsesSound(s) && Enabled(s, e) && e.Emit?
    ensures ResponsesSound(Apply(s, e)) && OnlyTrafficMoved(s, Apply(s, e))
  {
    hide ResponsesSound;
    EmitKeepsResponses(s, Apply(s, e), Response(e.id, s.emitted, e.origin));
  }

  lemma ReadKeepsFlight(s: State, e: Event)
    requires ResponsesSound(s) && Enabled(s, e) && e.Read?
    ensures ResponsesSound(Apply(s, e)) && OnlyTrafficMoved(s, Apply(s, e))
  {
    hide ResponsesSound;
    var t, k := Apply(s, e), |s.recvQueue|;
    var before, after := s.recvQueue + s.wire, t.recvQueue + t.wire;
    if e.queued {
      assert after == before;
    } else {
      assert after == before[..k] + before[k + 1..];
    }
    FlightKeeps(s, t, k);
  }

  lemma TrafficKeeps(start: uint32, s: State, e: Event)
    requires Inv(start, s) && Enabled(s, e) && (e.Emit? || e.Read?)
    ensures Inv(start, Apply(s, e))
  {
    hide FatesSound, ResponsesSound, ChannelsSound, SendLogSound, PendingSound;
    if e.Emit? {
      EmitKeepsFlight(s, e);
    } else {
      ReadKeepsFlight(s, e);
    }
    TrafficKeepsFates(s, Apply(s, e));
    TrafficKeepsTheRest(start, s, Apply(s, e));
    assert LimitsSound(Apply(s, e)) by { TrafficKeepsLimits(s, e); }
    hide LimitsSound;
  }

  lemma TrafficKeepsLimits(s: State, e: Event)
    requires LimitsSound(s) && Enabled(s, e) && (e.Emit? || e.Read?)
    ensures LimitsSound(Apply(s, e))
  {}

  lemma TrafficKeepsTheRest(start: uint32, s: State, t: State)
    requires ChannelsSound(s) && SendLogSound(start, s) && PendingSound(s) && OnlyTrafficMoved(s, t)
    ensures ChannelsSound(t) && SendLogSound(start, t) && PendingSound(t)
  {}

  // The dispatcher sends.

  /** The head of the queue was sent under the current ID. */
  ghost predicate SentHead(s: State, t: State) {
    && s.running && s.sendQueue != []
    && var call, id, n := s.sendQueue[0], s.disp.idCounter, |s.sent|;
    && t.running && t.calls == s.calls && t.sem == s.sem
    && t.sendQueue == s.sendQueue[1..] && t.recvQueue == s.recvQueue && t.wire == s.wire && t.emitted == s.emitted
    && t.sent == s.sent + [Sent(id, call)]
    && t.pendingSend == s.pendingSend[id := n]
    && t.fates == (if id in s.pendingSend then s.fates[s.pendingSend[id] := Overwritten(n)] else s.fates)
    && t.disp.idCounter == (id + 1) % TWO_32
    && t.disp.pending == s.disp.pending[id := call]
    && t.disp.info.Keys == s.disp.info.Keys + {id}
    && t.disp.closed == s.disp.closed && t.disp.panicked == s.disp.panicked
  }

  lemma SentLogExtends(s: State, t: State)
    requires SentHead(s, t)
    ensures |t.sent| == |s.sent| + 1 && t.sent[|s.sent|] == Sent(s.disp.idCounter, s.sendQueue[0])
    ensures forall n :: 0 <= n < |s.sent| ==> t.sent[n] == s.sent[n]
  {}

  lemma SendKeepsLog(start: uint32, s: State, t: State)
    requires SendLogSound(start, s) && SentHead(s, t)
    ensures SendLogSound(start, t)
  {
    SentLogExtends(s, t);
    NextId(start, |s.sent|);
    var call := s.sendQueue[0];
    assert forall i :: 0 <= i < |t.sendQueue| ==> t.sendQueue[i] == s.sendQueue[i + 1];
    assert forall n :: 0 <= n < |t.sent| ==> t.sent[n].call !in t.sendQueue;
    assert forall n :: 0 <= n < |s.sent| ==> s.sent[n].call != call;
  }

  lemma NextId(start: int, n: nat)
    ensures ((start + n) % TWO_32 + 1) % TWO_32 == (start + (n + 1)) % TWO_32
  {}

  lemma SendKeepsChannels(start: uint32, s: State, t: State)
    requires SendLogSound(start, s) && ChannelsSound(s) && PendingSound(s) && SentHead(s, t)
    ensures ChannelsSound(t)
  {
    hide SendLogSound, PendingSound;
    FreshChannel(start, s);
  }

  /** The channel at the head of the queue is neither pending nor closed. */
  lemma FreshChannel(start: uint32, s: State)
    requires SendLogSound(start, s) && PendingSound(s) && s.running && s.sendQueue != []
    ensures s.sendQueue[0] !in s.disp.closed
    ensures forall id :: id in s.disp.pending ==> s.disp.pending[id] != s.sendQueue[0]
  {
    assert s.sendQueue[0] in s.sendQueue;
    forall id | id in s.disp.pending
      ensures s.disp.pending[id] != s.sendQueue[0]
    {
      assert s.sent[s.pendingSend[id]].call == s.disp.pending[id];
    }
  }

  lemma SendKeepsPending(s: State, t: State)
    requires PendingSound(s) && SentHead(s, t)
    ensures PendingSound(t)
  {
    SentLogExtends(s, t);
  }

  lemma SameIdFarApart(start: int, n: nat, m: nat)
    requires n < m && (start + n) % TWO_32 == (start + m) % TWO_32
    ensures n + TWO_32 <= m
  {}

  /** Reusing an ID that is still pending means 2^32 sends have succeeded meanwhile. */
  lemma ReuseIsFar(start: uint32, s: State)
    requires SendLogSound(start, s) && PendingSound(s)
    requires s.disp.idCounter in s.pendingSend
    ensures s.pendingSend[s.disp.idCounter] + TWO_32 <= |s.sent|
  {
    hide SendLogSound, PendingSound;
    var n := s.pendingSend[s.disp.idCounter];
    EntryIsPending(s, s.disp.idCounter);
    EntryHasId(s, s.disp.idCounter);
    SendNumber(start, s, n);
    NextNumber(start, s);
    SameIdFarApart(start, n, |s.sent|);
  }

  lemma SendKeepsResponses(s: State, t: State)
    requires ResponsesSound(s) && SentHead(s, t)
    ensures ResponsesSound(t)
  {
    SentLogExtends(s, t);
    assert forall c :: IsAnswered(t, c) <==> IsAnswered(s, c);
    assert forall c :: IsAnswered(t, c) ==> AnswerOf(t, c) == AnswerOf(s, c);
  }

  lemma SendMovesPending(s: State, t: State, n: nat)
    requires PendingSound(s) && SentHead(s, t) && n < |t.sent|
    ensures IsPending(t, n) <==> n == |s.sent| || (IsPending(s, n) && s.sent[n].id != s.disp.idCounter)
  {
    SentLogExtends(s, t);
  }

  /** A pending request's caller has not been answered and its channel is open. */
  lemma PendingIsUnanswered(start: uint32, s: State, n: nat)
    requires SendLogSound(start, s) && PendingSound(s) && FatesSound(s) && ChannelsSound(s) && s.running
    requires n < |s.sent| && IsPending(s, n)
    ensures !IsAnswered(s, s.sent[n].call) && s.sent[n].call !in s.disp.closed
  {
    assert s.disp.pending[s.sent[n].id] == s.sent[n].call;
  }

  lemma KeptFate(s: State, t: State, n: nat)
    requires FatesSound(s) && SentHead(s, t)
    requires n in s.fates && n in t.fates && t.fates[n] == s.fates[n]
    ensures n < |s.sent| && FateHolds(t, n)
  {
    SentLogExtends(s, t);
    assert FateHolds(s, n);
    hide FatesSound, SentHead;
  }

  lemma OverwrittenFate(start: uint32, s: State, t: State)
    requires SendLogSound(start, s) && PendingSound(s) && FatesSound(s) && ChannelsSound(s) && SentHead(s, t)
    requires s.disp.idCounter in s.pendingSend
    ensures var n := s.pendingSend[s.disp.idCounter]; n < |s.sent| && n in t.fates && FateHolds(t, n)
  {
    hide SendLogSound, PendingSound, ChannelsSound, FatesSound;
    SentLogExtends(s, t);
    EntryIsPending(s, s.disp.idCounter);
    ReuseIsFar(start, s);
    PendingIsUnanswered(start, s, s.pendingSend[s.disp.idCounter]);
  }

  lemma EntryIsPending(s: State, id: uint32)
    requires PendingSound(s) && id in s.pendingSend
    ensures s.pendingSend[id] < |s.sent| && IsPending(s, s.pendingSend[id])
  {}

  lemma SendKeepsFate(start: uint32, s: State, t: State, n: nat)
    requires SendLogSound(start, s) && PendingSound(s) && FatesSound(s) && ChannelsSound(s) && SentHead(s, t)
    requires n < |t.sent| && n in t.fates
    ensures n < |s.sent| && FateHolds(t, n)
  {
    hide SendLogSound, PendingSound, ChannelsSound, FatesSound, FateHolds;
    if s.disp.idCounter in s.pendingSend && n == s.pendingSend[s.disp.idCounter] {
      OverwrittenFate(start, s, t);
    } else {
      KeptFate(s, t, n);
    }
  }

  lemma SendKeepsFates(start: uint32, s: State, t: State)
    requires SendLogSound(start, s) && PendingSound(s) && FatesSound(s) && ChannelsSound(s) && SentHead(s, t)
    ensures FatesSound(t)
  {
    hide SendLogSound, PendingSound, ChannelsSound, SentHead, FateHolds, IsPending, IsAnswered;
    forall n: nat | n < |t.sent|
      ensures n in t.fates <==> !IsPending(t, n)
      ensures n in t.fates ==> FateHolds(t, n)
    {
      SentFates(s, t, n);
      if n in t.fates {
        SendKeepsFate(start, s, t, n);
      }
    }
    forall n | n in t.fates
      ensures n < |t.sent|
    {
      SentFatesInLog(s, t, n);
    }
    forall c | IsAnswered(t, c)
      ensures exists n: nat :: n < |t.sent| && t.sent[n].call == c && n in t.fates && t.fates[n].HandedOver?
    {
      var n := SendKeepsAnswer(s, t, c);
    }
  }

  lemma SentFates(s: State, t: State, n: nat)
    requires PendingSound(s) && FatesSound(s) && SentHead(s, t) && n < |t.sent|
    ensures n in t.fates <==> !IsPending(t, n)
  {
    SentLogExtends(s, t);
    SendMovesPending(s, t, n);
    if s.disp.idCounter in s.pendingSend {
      EntryIsPending(s, s.disp.idCounter);
    }
    if n < |s.sent| {
      assert n in s.fates <==> !IsPending(s, n);
    }
    hide PendingSound;
  }

  lemma SentFatesInLog(s: State, t: State, n: nat)
    requires PendingSound(s) && FatesSound(s) && SentHead(s, t) && n in t.fates
    ensures n < |t.sent|
  {
    SentLogExtends(s, t);
  }

  lemma SendKeepsAnswer(s: State, t: State, c: CallId) returns (n: nat)
    requires FatesSound(s) && SentHead(s, t) && IsAnswered(t, c) && PendingSound(s)
    ensures n < |t.sent| && t.sent[n].call == c && n in t.fates && t.fates[n].HandedOver?
  {
    SentLogExtends(s, t);
    assert IsAnswered(s, c);
    n :| n < |s.sent| && s.sent[n].call == c && n in s.fates && s.fates[n].HandedOver?;
    assert !IsPending(s, n);
    hide FatesSound;
    if s.disp.idCounter in s.pendingSend {
      EntryIsPending(s, s.disp.idCounter);
    }
  }

  lemma FailedSendKeeps(start: uint32, s: State, t: State)
    requires Inv(start, s) && s.sendQueue != []
    requires t == s.(sendQueue := s.sendQueue[1..], leaked := t.leaked)
    ensures Inv(start, t)
  {
    hide FatesSound, ResponsesSound, ChannelsSound, SendLogSound, PendingSound;
    assert OnlyCallersMoved(s, t);
    CallersMoveKeepsFates(s, t);
    CallersMoveKeepsResponses(s, t);
    assert ChannelsSound(t) && SendLogSound(start, t) && PendingSound(t) by {
      ShorterQueueKeeps(start, s, t);
    }
  }

  lemma ShorterQueueKeeps(start: uint32, s: State, t: State)
    requires ChannelsSound(s) && SendLogSound(start, s) && PendingSound(s) && s.sendQueue != []
    requires t == s.(sendQueue := s.sendQueue[1..], leaked := t.leaked)
    ensures ChannelsSound(t) && SendLogSound(start, t) && PendingSound(t)
  {
    assert forall i :: 0 <= i < |t.sendQueue| ==> t.sendQueue[i] == s.sendQueue[i + 1];
    assert forall n :: 0 <= n < |s.sent| ==> s.sent[n].call !in t.sendQueue;
  }

  lemma SendIsSentHead(s: State, e: Event)
    requires Enabled(s, e) && e.Send? && e.encoded
    ensures SentHead(s, Apply(s, e))
  {}

  lemma SendKeepsLimits(s: State, t: State)
    requires LimitsSound(s) && SentHead(s, t)
    ensures LimitsSound(t)
  {}

  lemma SendKeeps(start: uint32, s: State, e: Event)
    requires Inv(start, s) && Enabled(s, e) && e.Send?
    ensures Inv(start, Apply(s, e))
  {
    var t := Apply(s, e);
    hide FatesSound, ResponsesSound, ChannelsSound, SendLogSound, PendingSound, LimitsSound;
    if e.encoded {
      assert SentHead(s, t) by { SendIsSentHead(s, e); }
      hide Apply, SentHead;
      SendKeepsLimits(s, t);
      SendKeepsChannels(start, s, t);
      SendKeepsLog(start, s, t);
      SendKeepsPending(s, t);
      SendKeepsFates(start, s, t);
      SendKeepsResponses(s, t);
    } else {
      FailedSendKeeps(start, s, t);
    }
  }

  // The dispatcher receives.

  /** The head of the receive queue matched a pending entry and was handed over or dropped. */
  ghost predicate Received(s: State, t: State) {
    && s.running && s.recvQueue != []
    && var r := s.recvQueue[0];
    && r.id in s.disp.pending && r.id in s.pendingSend
    && var call, n := s.disp.pending[r.id], s.pendingSend[r.id];
    && var parked := call in s.calls && s.calls[call] == Waiting;
    && t.running && t.sendQueue == s.sendQueue && t.recvQueue == s.recvQueue[1..] && t.wire == s.wire
    && t.sent == s.sent && t.emitted == s.emitted
    && t.calls == (if parked then s.calls[call := Done(Answered(r))] else s.calls)
    && t.sem == (if parked then s.sem - {call} else s.sem)
    && t.pendingSend == s.pendingSend - {r.id}
    && t.fates == s.fates[n := if parked then HandedOver(r.serial, |s.sent|) else DroppedAndClosed(r, |s.sent|)]
    && t.disp.idCounter == s.disp.idCounter
    && t.disp.pending == s.disp.pending - {r.id}
    && t.disp.info == s.disp.info - {r.id}
    && t.disp.closed == s.disp.closed + {call}
    && t.disp.panicked == (s.disp.panicked || call in s.disp.closed)
  }

  /** The head of the receive queue matched nothing and was discarded. */
  ghost predicate DiscardedHead(s: State, t: State) {
    s.recvQueue != [] && t == s.(recvQueue := s.recvQueue[1..])
  }

  lemma RecvDiscards(s: State)
    requires s.recvQueue != [] && s.recvQueue[0].id !in s.disp.pending
    ensures DiscardedHead(s, ApplyRecv(s))
  {}

  lemma RecvHandles(s: State)
    requires s.running && s.recvQueue != []
    requires s.recvQueue[0].id in s.disp.pending && s.recvQueue[0].id in s.pendingSend
    ensures Received(s, ApplyRecv(s))
  {
    var call := s.disp.pending[s.recvQueue[0].id];
    assert call in Parked(s) <==> call in s.calls && s.calls[call] == Waiting;
    hide Parked;
  }

  lemma RecvIsOneOfTwo(s: State)
    requires PendingSound(s) && s.running && s.recvQueue != []
    ensures Received(s, ApplyRecv(s)) || DiscardedHead(s, ApplyRecv(s))
  {
    assert s.pendingSend.Keys == s.disp.pending.Keys;
    hide PendingSound, Received, DiscardedHead, ApplyRecv;
    if s.recvQueue[0].id in s.disp.pending {
      RecvHandles(s);
    } else {
      RecvDiscards(s);
    }
  }

  lemma RecvCall(start: uint32, s: State, t: State) returns (r: Response, n: nat, call: CallId)
    requires SendLogSound(start, s) && PendingSound(s) && FatesSound(s) && ChannelsSound(s) && Received(s, t)
    ensures r == s.recvQueue[0] && r.id in s.disp.pending && r.id in s.pendingSend
    ensures n == s.pendingSend[r.id] && n < |s.sent| && s.sent[n] == Sent(r.id, call) && IsPending(s, n)
    ensures call == s.disp.pending[r.id] && call in s.calls && s.calls[call] != Entered
    ensures !IsAnswered(s, call) && call !in s.disp.closed
  {
    r := s.recvQueue[0];
    n := s.pendingSend[r.id];
    call := s.disp.pending[r.id];
    EntryIsPending(s, r.id);
    PendingIsUnanswered(start, s, n);
    hide FatesSound, ChannelsSound;
  }

  lemma RecvKeepsChannels(start: uint32, s: State, t: State)
    requires SendLogSound(start, s) && PendingSound(s) && FatesSound(s) && ChannelsSound(s) && Received(s, t)
    ensures ChannelsSound(t)
  {
    hide SendLogSound, PendingSound, FatesSound;
    var r, n, call := RecvCall(start, s, t);
  }

  lemma RecvKeepsLog(start: uint32, s: State, t: State)
    requires SendLogSound(start, s) && PendingSound(s) && FatesSound(s) && ChannelsSound(s) && Received(s, t)
    ensures SendLogSound(start, t)
  {
    hide PendingSound, FatesSound, ChannelsSound;
    var r, n, call := RecvCall(start, s, t);
  }

  lemma RecvKeepsPending(s: State, t: State)
    requires PendingSound(s) && Received(s, t)
    ensures PendingSound(t)
  {}

  lemma RecvMovesAnswers(s: State, t: State, c: CallId)
    requires Received(s, t)
    ensures var r, call := s.recvQueue[0], s.disp.pending[s.recvQueue[0].id];
            var parked := call in s.calls && s.calls[call] == Waiting;
            && (IsAnswered(t, c) <==> IsAnswered(s, c) || (parked && c == call))
            && (IsAnswered(t, c) ==> AnswerOf(t, c) == if parked && c == call then r else AnswerOf(s, c))
  {}

  lemma RecvKeepsResponses(s: State, t: State)
    requires ResponsesSound(s) && Received(s, t)
    ensures ResponsesSound(t)
  {
    var before, after := s.recvQueue + s.wire, t.recvQueue + t.wire;
    assert after == before[1..];
    forall c
      ensures IsAnswered(t, c) ==> AnswerOf(t, c) == s.recvQueue[0] || (IsAnswered(s, c) && AnswerOf(t, c) == AnswerOf(s, c))
      ensures IsAnswered(t, c) && !IsAnswered(s, c) ==> c == s.disp.pending[s.recvQueue[0].id]
    {
      RecvMovesAnswers(s, t, c);
    }
    assert before[0] == s.recvQueue[0];
    hide Received;
  }

  lemma RecvKeepsLimits(s: State, t: State)
    requires LimitsSound(s) && Received(s, t)
    ensures LimitsSound(t)
  {}

  lemma RecvMovesPending(s: State, t: State, n: nat)
    requires PendingSound(s) && Received(s, t) && n < |s.sent|
    ensures IsPending(t, n) <==> IsPending(s, n) && n != s.pendingSend[s.recvQueue[0].id]
  {
    EntryIsPending(s, s.recvQueue[0].id);
  }

  /** The pending entry of an ID is the very send a response was meant for exactly as long
      as no more than 2^32 sends were made from that one on. */
  lemma RecvMatches(start: uint32, s: State, n: nat)
    requires SendLogSound(start, s) && PendingSound(s) && ResponsesSound(s) && s.recvQueue != []
    requires s.recvQueue[0].id in s.pendingSend && n == s.pendingSend[s.recvQueue[0].id]
    ensures Matches(s.recvQueue[0], n, |s.sent|) && s.recvQueue[0].serial < s.emitted
  {
    hide SendLogSound, PendingSound, ResponsesSound;
    var r := s.recvQueue[0];
    EntryIsPending(s, r.id);
    HeadWasEmitted(s);
    if r.origin.Answer? {
      HeadWasSent(s);
      var m := r.origin.send;
      EntryIsLatest(s, r.id, m);
      SendNumber(start, s, m);
      SendNumber(start, s, n);
      SameIdFarApartOrEqual(start, m, n);
      PendingIsRecent(start, s, r.id);
    }
  }

  /** An entry is still there only if its ID has not come round again. */
  lemma PendingIsRecent(start: uint32, s: State, id: uint32)
    requires SendLogSound(start, s) && PendingSound(s) && id in s.pendingSend
    ensures |s.sent| <= s.pendingSend[id] + TWO_32
  {
    hide SendLogSound, PendingSound;
    var n := s.pendingSend[id];
    EntryHasId(s, id);
    if n + TWO_32 < |s.sent| {
      SendNumber(start, s, n);
      SendNumber(start, s, n + TWO_32);
      OnceRound(start + n);
      EntryIsLatest(s, id, n + TWO_32);
    }
  }

  lemma OnceRound(x: int)
    ensures (x + TWO_32) % TWO_32 == x % TWO_32
  {}

  lemma HeadWasEmitted(s: State)
    requires ResponsesSound(s) && s.recvQueue != []
    ensures s.recvQueue[0].serial < s.emitted
  {
    assert s.recvQueue[0] == (s.recvQueue + s.wire)[0];
  }

  lemma HeadWasSent(s: State)
    requires ResponsesSound(s) && s.recvQueue != [] && s.recvQueue[0].origin.Answer?
    ensures var r := s.recvQueue[0]; r.origin.send < |s.sent| && s.sent[r.origin.send].id == r.id
  {
    assert s.recvQueue[0] == (s.recvQueue + s.wire)[0];
  }

  lemma EntryHasId(s: State, id: uint32)
    requires PendingSound(s) && id in s.pendingSend
    ensures s.pendingSend[id] < |s.sent| && s.sent[s.pendingSend[id]].id == id
  {}

  lemma NextNumber(start: uint32, s: State)
    requires SendLogSound(start, s)
    ensures s.disp.idCounter == (start + |s.sent|) % TWO_32
  {}

  lemma EntryIsLatest(s: State, id: uint32, m: nat)
    requires PendingSound(s) && id in s.pendingSend && m < |s.sent| && s.sent[m].id == id
    ensures m <= s.pendingSend[id] < |s.sent| && s.sent[s.pendingSend[id]].id == id
  {}

  lemma SendNumber(start: uint32, s: State, n: nat)
    requires SendLogSound(start, s) && n < |s.sent|
    ensures s.sent[n].id == (start + n) % TWO_32
  {}

  lemma SameIdFarApartOrEqual(start: int, n: nat, m: nat)
    requires n <= m && (start + n) % TWO_32 == (start + m) % TWO_32
    ensures n == m || n + TWO_32 <= m
  {}

  lemma RecvFate(start: uint32, s: State, t: State)
    requires Inv(start, s) && Received(s, t)
    ensures var n := s.pendingSend[s.recvQueue[0].id];
            n < |s.sent| && n in t.fates && FateHolds(t, n) &&
            (t.fates[n].HandedOver? <==> IsAnswered(t, s.sent[n].call))
  {
    hide SendLogSound, PendingSound, FatesSound, ChannelsSound, ResponsesSound, LimitsSound;
    var r, n, call := RecvCall(start, s, t);
    RecvMatches(start, s, n);
    RecvMovesAnswers(s, t, call);
  }

  lemma RecvKeepsOtherFate(start: uint32, s: State, t: State, n: nat)
    requires SendLogSound(start, s) && PendingSound(s) && FatesSound(s) && ChannelsSound(s) && Received(s, t)
    requires n < |s.sent| && n in s.fates && n != s.pendingSend[s.recvQueue[0].id]
    ensures n in t.fates && t.fates[n] == s.fates[n] && FateHolds(t, n)
    ensures IsAnswered(t, s.sent[n].call) <==> IsAnswered(s, s.sent[n].call)
  {
    hide PendingSound, ChannelsSound, Injective, IsAnswered, FateHolds;
    var r, m, call := RecvCall(start, s, t);
    assert s.sent[n].call != call;
    assert FateHolds(s, n);
    RecvMovesAnswers(s, t, s.sent[n].call);
    hide SendLogSound, FatesSound;
    FateCarries(s, t, n);
  }

  lemma RecvKeepsFates(start: uint32, s: State, t: State)
    requires Inv(start, s) && Received(s, t)
    ensures FatesSound(t)
  {
    hide SendLogSound, PendingSound, ChannelsSound, ResponsesSound, LimitsSound, FateHolds;
    var r, m, call := RecvCall(start, s, t);
    RecvFate(start, s, t);
    assert forall n :: n in s.fates ==> n < |s.sent|;
    forall n: nat | n < |t.sent|
      ensures n in t.fates <==> !IsPending(t, n)
      ensures n in t.fates ==> FateHolds(t, n)
    {
      RecvMovesPending(s, t, n);
      assert n in s.fates <==> !IsPending(s, n);
      if n in s.fates && n != m {
        RecvKeepsOtherFate(start, s, t, n);
      }
    }
    forall c | IsAnswered(t, c)
      ensures exists n: nat :: n < |t.sent| && t.sent[n].call == c && n in t.fates && t.fates[n].HandedOver?
    {
      RecvMovesAnswers(s, t, c);
      if IsAnswered(s, c) {
        var n: nat :| n < |s.sent| && s.sent[n].call == c && n in s.fates && s.fates[n].HandedOver?;
        RecvKeepsOtherFate(start, s, t, n);
        assert t.sent[n].call == c && n in t.fates && t.fates[n].HandedOver?;
      } else {
        assert t.sent[m].call == c && m in t.fates && t.fates[m].HandedOver?;
      }
    }
  }

  lemma DiscardKeeps(start: uint32, s: State, t: State)
    requires Inv(start, s) && DiscardedHead(s, t)
    ensures Inv(start, t)
  {
    hide FatesSound, ResponsesSound, ChannelsSound, SendLogSound, PendingSound;
    TrafficKeepsFates(s, t);
    var before, after := s.recvQueue + s.wire, t.recvQueue + t.wire;
    assert after == before[..0] + before[0 + 1..];
    FlightKeeps(s, t, 0);
    TrafficKeepsTheRest(start, s, t);
  }

  lemma RecvKeeps(start: uint32, s: State, e: Event)
    requires Inv(start, s) && Enabled(s, e) && e.Recv?
    ensures Inv(start, Apply(s, e))
  {
    var t := Apply(s, e);
    hide FatesSound, ResponsesSound, ChannelsSound, SendLogSound, PendingSound, LimitsSound;
    RecvIsOneOfTwo(s);
    hide Received, DiscardedHead, ApplyRecv;
    if Received(s, t) {
      RecvKeepsChannels(start, s, t);
      RecvKeepsLog(start, s, t);
      RecvKeepsPending(s, t);
      RecvKeepsFates(start, s, t);
      RecvKeepsResponses(s, t);
      RecvKeepsLimits(s, t);
    } else {
      DiscardKeeps(start, s, t);
    }
  }

  // The dispatcher shuts down.

  /** Every pending channel was closed and its send recorded as closed by shutdown. */
  ghost predicate Stopped(s: State, t: State) {
    && s.running && !t.running
    && t.calls == s.calls && t.sem == s.sem && t.sent == s.sent && t.emitted == s.emitted
    && t.sendQueue == s.sendQueue && t.recvQueue == s.recvQueue && t.wire == s.wire
    && t.pendingSend == map[]
    && t.disp == HandleShutdown(s.disp)
    && (forall n: nat :: n in s.pendingSend.Values ==> n in t.fates && t.fates[n] == ClosedByShutdown)
    && (forall n: nat :: n !in s.pendingSend.Values ==> (n in t.fates <==> n in s.fates))
    && (forall n: nat :: n !in s.pendingSend.Values && n in s.fates ==> t.fates[n] == s.fates[n])
  }

  lemma ShutdownStops(s: State)
    requires s.running
    ensures Stopped(s, ApplyShutdown(s))
  {}

  lemma PendingValues(s: State, n: nat)
    requires PendingSound(s) && n < |s.sent|
    ensures n in s.pendingSend.Values <==> IsPending(s, n)
    ensures IsPending(s, n) && s.running ==> s.sent[n].call in s.disp.pending.Values
  {
    if n in s.pendingSend.Values {
      var id :| id in s.pendingSend && s.pendingSend[id] == n;
      EntryIsPending(s, id);
    }
    if IsPending(s, n) {
      assert s.disp.pending[s.sent[n].id] == s.sent[n].call;
    }
  }

  /** A channel closed by shutdown belongs to a pending send. */
  lemma PendingChannels(s: State, n: nat)
    requires PendingSound(s) && s.running && n < |s.sent| && s.sent[n].call in s.disp.pending.Values
    requires forall m :: 0 <= m < |s.sent| && s.sent[n].call == s.sent[m].call ==> n == m
    ensures IsPending(s, n)
  {
    var id :| id in s.disp.pending && s.disp.pending[id] == s.sent[n].call;
    EntryIsPending(s, id);
  }

  lemma ShutdownMovesAnswers(s: State, t: State, c: CallId)
    requires Stopped(s, t)
    ensures IsAnswered(t, c) <==> IsAnswered(s, c)
    ensures IsAnswered(t, c) ==> AnswerOf(t, c) == AnswerOf(s, c)
  {}

  lemma ClosedPendingFate(start: uint32, s: State, t: State, n: nat)
    requires SendLogSound(start, s) && PendingSound(s) && FatesSound(s) && ChannelsSound(s) && Stopped(s, t)
    requires n < |s.sent| && IsPending(s, n)
    ensures n in t.fates && FateHolds(t, n)
  {
    hide SendLogSound, PendingSound, FatesSound, ChannelsSound, Injective;
    PendingValues(s, n);
    PendingIsUnanswered(start, s, n);
    ShutdownMovesAnswers(s, t, s.sent[n].call);
    hide IsAnswered;
  }

  lemma SettledFate(start: uint32, s: State, t: State, n: nat)
    requires SendLogSound(start, s) && PendingSound(s) && FatesSound(s) && Stopped(s, t)
    requires n < |s.sent| && n in s.fates
    ensures n in t.fates && t.fates[n] == s.fates[n] && FateHolds(t, n)
  {
    PendingValues(s, n);
    assert !IsPending(s, n) && FateHolds(s, n);
    assert s.sent[n].call !in s.disp.pending.Values by {
      if s.sent[n].call in s.disp.pending.Values {
        PendingChannels(s, n);
      }
    }
    hide SendLogSound, PendingSound, FatesSound, Injective, IsPending, IsAnswered, FateHolds;
    ShutdownMovesAnswers(s, t, s.sent[n].call);
    FateCarries(s, t, n);
  }

  lemma ShutdownFatesInLog(s: State, t: State, n: nat)
    requires PendingSound(s) && FatesSound(s) && Stopped(s, t) && n in t.fates
    ensures n < |s.sent|
  {
    hide HandleShutdown;
  }

  lemma ShutdownKeepsFates(start: uint32, s: State, t: State)
    requires SendLogSound(start, s) && PendingSound(s) && FatesSound(s) && ChannelsSound(s) && Stopped(s, t)
    ensures FatesSound(t)
  {
    hide SendLogSound, PendingSound, ChannelsSound, FateHolds, HandleShutdown;
    assert t.sent == s.sent && t.pendingSend == map[];
    forall n: nat | n < |s.sent|
      ensures n in t.fates && FateHolds(t, n)
      ensures n in s.fates ==> t.fates[n] == s.fates[n]
    {
      assert n in s.fates <==> !IsPending(s, n);
      if IsPending(s, n) {
        ClosedPendingFate(start, s, t, n);
      } else {
        SettledFate(start, s, t, n);
      }
    }
    forall n | n in t.fates
      ensures n < |s.sent|
    {
      ShutdownFatesInLog(s, t, n);
    }
    forall c | IsAnswered(t, c)
      ensures exists n: nat :: n < |t.sent| && t.sent[n].call == c && n in t.fates && t.fates[n].HandedOver?
    {
      ShutdownMovesAnswers(s, t, c);
      var n: nat :| n < |s.sent| && s.sent[n].call == c && n in s.fates && s.fates[n].HandedOver?;
      assert t.sent[n].call == c && n in t.fates && t.fates[n].HandedOver?;
    }
    hide Stopped;
  }

  lemma ShutdownKeepsChannels(s: State, t: State)
    requires ChannelsSound(s) && Stopped(s, t)
    ensures ChannelsSound(t)
  {}

  lemma ShutdownKeepsLog(start: uint32, s: State, t: State)
    requires SendLogSound(start, s) && PendingSound(s) && Stopped(s, t)
    ensures SendLogSound(start, t)
  {
    forall c | c in t.disp.closed
      ensures exists n :: 0 <= n < |s.sent| && s.sent[n].call == c
    {
      if c !in s.disp.closed {
        PendingCallWasSent(s, c);
      }
    }
    assert t.disp.idCounter == s.disp.idCounter;
    hide HandleShutdown, PendingSound;
  }

  lemma PendingCallWasSent(s: State, c: CallId)
    requires PendingSound(s) && s.running && c in s.disp.pending.Values
    ensures exists n :: 0 <= n < |s.sent| && s.sent[n].call == c
  {
    var id :| id in s.disp.pending && s.disp.pending[id] == c;
    assert s.sent[s.pendingSend[id]].call == c;
  }

  lemma ShutdownKeepsResponses(s: State, t: State)
    requires ResponsesSound(s) && LimitsSound(s) && Stopped(s, t)
    ensures ResponsesSound(t) && LimitsSound(t)
  {
    assert forall c :: IsAnswered(t, c) <==> IsAnswered(s, c);
    assert forall c :: IsAnswered(t, c) ==> AnswerOf(t, c) == AnswerOf(s, c);
  }

  lemma ShutdownKeeps(start: uint32, s: State, e: Event)
    requires Inv(start, s) && Enabled(s, e) && e.Shutdown?
    ensures Inv(start, Apply(s, e))
  {
    hide FatesSound, ResponsesSound, ChannelsSound, SendLogSound, PendingSound, LimitsSound, Stopped;
    var t := Apply(s, e);
    ShutdownStops(s);
    ShutdownKeepsFates(start, s, t);
    ShutdownKeepsChannels(s, t);
    ShutdownKeepsLog(start, s, t);
    ShutdownKeepsResponses(s, t);
    assert PendingSound(t) by { NothingPending(s, t); }
  }

  lemma NothingPending(s: State, t: State)
    requires Stopped(s, t)
    ensures PendingSound(t)
  {}

  /** Every step keeps the invariant. */
  lemma StepKeeps(start: uint32, s: State, e: Event)
    requires Inv(start, s) && Enabled(s, e)
    ensures Inv(start, Apply(s, e))
  {
    hide Inv, Enabled;
    match e
    case Send(_, _, _) => SendKeeps(start, s, e);
    case Emit(_, _) => TrafficKeeps(start, s, e);
    case Read(_) => TrafficKeeps(start, s, e);
    case Recv => RecvKeeps(start, s, e);
    case Shutdown => ShutdownKeeps(start, s, e);
    case _ => CallerStepKeeps(start, s, e);
  }

  lemma {:induction false} RunKeeps(start: uint32, s: State, events: seq<Event>, t: State)
    requires Inv(start, s) && Runs(s, events, t)
    ensures Inv(start, t)
    decreases |events|
  {
    hide Inv;
    if events != [] {
      StepKeeps(start, s, events[0]);
      RunKeeps(start, Apply(s, events[0]), events[1..], t);
    }
  }
}
