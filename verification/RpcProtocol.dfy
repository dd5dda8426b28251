/** The whole client as a step relation: callers, the dispatcher, the reader and the server,
    interleaved in any order, with the history needed to say which response answers what. */
module RpcProtocol {
  import opened MachineInt
  import opened RpcDispatcher

  const CONCURRENT_LIMIT: nat := 1024

  /** What the server meant a response to answer: the n-th successful send, a request whose
      encoding failed after it had reached the server, or nothing the client sent. */
  datatype Origin = Answer(send: nat) | Leaked(call: CallId) | Stray

  /** `serial` numbers the responses in the order the server emitted them. */
  datatype Response = Response(id: uint32, serial: nat, origin: Origin)

  datatype Outcome = Answered(resp: Response) | ClosedChannel | TimedOut | Cancelled | Unmarshalable

  /** A caller that holds the semaphore, has queued its message, is parked on its channel,
      or has returned. */
  datatype Phase = Entered | Queued | Waiting | Done(outcome: Outcome)

  datatype Sent = Sent(id: uint32, call: CallId)

  /** How a sent request left the pending map. */
  datatype Fate =
    | HandedOver(serial: nat, sends: nat)
    | DroppedAndClosed(resp: Response, sends: nat)
    | ClosedByShutdown
    | Overwritten(send: nat)

  datatype State = State(
    disp: Dispatcher,
    running: bool,
    cancelled: bool,
    calls: map<CallId, Phase>,
    sem: set<CallId>,
    sendQueue: seq<CallId>,
    recvQueue: seq<Response>,
    wire: seq<Response>,
    // History.
    sent: seq<Sent>,
    pendingSend: map<uint32, nat>,
    fates: map<nat, Fate>,
    leaked: set<CallId>,
    emitted: nat)

  datatype Event =
    | Acquire(call: CallId)
    | Enqueue(call: CallId)
    | Await(call: CallId)
    | GiveUp(call: CallId, outcome: Outcome)
    | ReceiveNil(call: CallId)
    | Send(description: string, encoded: bool, reached: bool)
    | Emit(id: uint32, origin: Origin)
    | Read(queued: bool)
    | Recv
    | Cancel
    | Shutdown

  function Init(start: uint32): State {
    State(Dispatcher(start, map[], map[], {}, false), true, false, map[], {}, [], [], [], [], map[], map[], {}, 0)
  }

  predicate InPhase(s: State, call: CallId, phase: Phase) {
    call in s.calls && s.calls[call] == phase
  }

  /** The caller is somewhere inside the section guarded by the semaphore. */
  predicate Active(s: State, call: CallId) {
    call in s.calls && !s.calls[call].Done?
  }

  function Parked(s: State): set<CallId> {
    set c | c in s.calls && s.calls[c] == Waiting
  }

  predicate CanEmit(s: State, id: uint32, origin: Origin) {
    match origin
    case Answer(n) => n < |s.sent| && s.sent[n].id == id
    case Leaked(c) => c in s.leaked
    case Stray => true
  }

  predicate Enabled(s: State, e: Event) {
    match e
    case Acquire(c) => c !in s.calls && |s.sem| < CONCURRENT_LIMIT
    case Enqueue(c) => InPhase(s, c, Entered) && |s.sendQueue| < CONCURRENT_LIMIT
    case Await(c) => InPhase(s, c, Queued) && c !in s.disp.closed
    case GiveUp(c, o) =>
      && (c in s.calls ==> Active(s, c))
      && (o == TimedOut || (o == Cancelled && s.cancelled) || (o == Unmarshalable && InPhase(s, c, Entered)))
    case ReceiveNil(c) => (InPhase(s, c, Queued) || InPhase(s, c, Waiting)) && c in s.disp.closed
    case Send(_, _, _) => s.running && s.sendQueue != []
    case Emit(id, origin) => CanEmit(s, id, origin)
    case Read(queued) => s.wire != [] && (queued ==> |s.recvQueue| < CONCURRENT_LIMIT)
    case Recv => s.running && s.recvQueue != []
    case Cancel => true
    case Shutdown => s.running && s.cancelled
  }

  function Finish(s: State, call: CallId, outcome: Outcome): State {
    s.(calls := s.calls[call := Done(outcome)], sem := s.sem - {call})
  }

  function ApplySend(s: State, description: string, encoded: bool, reached: bool): State
    requires s.sendQueue != []
  {
    var call, id, n := s.sendQueue[0], s.disp.idCounter, |s.sent|;
    var t := s.(disp := HandleSend(s.disp, call, description, encoded), sendQueue := s.sendQueue[1..]);
    if !encoded then
      t.(leaked := if reached then s.leaked + {call} else s.leaked)
    else
      t.(sent := s.sent + [Sent(id, call)],
         pendingSend := s.pendingSend[id := n],
         fates := if id in s.pendingSend then s.fates[s.pendingSend[id] := Overwritten(n)] else s.fates)
  }

  function ApplyRecv(s: State): State
    requires s.recvQueue != []
  {
    var r := s.recvQueue[0];
    var (d, receipt) := HandleRecv(s.disp, r.id, Parked(s));
    var t := s.(disp := d, recvQueue := s.recvQueue[1..]);
    if receipt.Discarded? || r.id !in s.pendingSend then t
    else
      var n := s.pendingSend[r.id];
      var u := t.(pendingSend := s.pendingSend - {r.id});
      if receipt.Delivered? then
        Finish(u, receipt.call, Answered(r)).(fates := s.fates[n := HandedOver(r.serial, |s.sent|)])
      else
        u.(fates := s.fates[n := DroppedAndClosed(r, |s.sent|)])
  }

  function ApplyShutdown(s: State): State {
    s.(disp := HandleShutdown(s.disp),
       running := false,
       pendingSend := map[],
       fates := s.fates + (map n | n in s.pendingSend.Values :: ClosedByShutdown))
  }

  function Apply(s: State, e: Event): State
    requires Enabled(s, e)
  {
    match e
    case Acquire(c) => s.(calls := s.calls[c := Entered], sem := s.sem + {c})
    case Enqueue(c) => s.(calls := s.calls[c := Queued], sendQueue := s.sendQueue + [c])
    case Await(c) => s.(calls := s.calls[c := Waiting])
    case GiveUp(c, o) => Finish(s, c, o)
    case ReceiveNil(c) => Finish(s, c, ClosedChannel)
    case Send(description, encoded, reached) => ApplySend(s, description, encoded, reached)
    case Emit(id, origin) => s.(wire := s.wire + [Response(id, s.emitted, origin)], emitted := s.emitted + 1)
    case Read(queued) => s.(wire := s.wire[1..], recvQueue := if queued then s.recvQueue + [s.wire[0]] else s.recvQueue)
    case Recv => ApplyRecv(s)
    case Cancel => s.(cancelled := true)
    case Shutdown => ApplyShutdown(s)
  }

  /** The events take the client from s to t. */
  ghost predicate Runs(s: State, events: seq<Event>, t: State)
    decreases |events|
  {
    if events == [] then s == t
    else Enabled(s, events[0]) && Runs(Apply(s, events[0]), events[1..], t)
  }

  lemma {:induction false} RunsCompose(s: State, first: seq<Event>, t: State, second: seq<Event>, u: State)
    requires Runs(s, first, t) && Runs(t, second, u)
    ensures Runs(s, first + second, u)
    decreases |first|
  {
    if first == [] {
      assert first + second == second;
    } else {
      RunsCompose(Apply(s, first[0]), first[1..], t, second, u);
      assert (first + second)[1..] == first[1..] + second;
    }
  }
}
