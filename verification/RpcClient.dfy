/** The dispatcher's handlers as they update the client and its channels in place. Each is
    proved to do to the abstract dispatcher what `RpcDispatcher` says, and the preconditions of
    `Close` and `TrySend` are where the host language would panic. */
module RpcClient {
  import opened MachineInt
  import opened RpcProtocol
  import opened Wrappers
  import Spec = RpcDispatcher

  /** An unbuffered channel of one call. */
  class ResponseChan {
    const call: Spec.CallId
    var parked: bool
    var received: Option<Response>
    var closed: bool

    constructor (call: Spec.CallId)
      ensures this.call == call && !parked && received == None && !closed
    {
      this.call := call;
      parked, received, closed := false, None, false;
    }

    /** `select { case ch <- resp: default: }` */
    method TrySend(resp: Response) returns (ok: bool)
      requires !closed
      modifies this`parked, this`received
      ensures ok == old(parked) && !parked
      ensures received == if ok then Some(resp) else old(received)
    {
      ok := parked;
      if ok {
        received := Some(resp);
        parked := false;
      }
    }

    method Close()
      requires !closed
      modifies this`closed
      ensures closed
    {
      closed := true;
    }
  }

  datatype MessageWrapper = MessageWrapper(methodName: string, params: string, responseChan: ResponseChan)

  function Describe(w: MessageWrapper): string {
    "method: " + w.methodName + ", params: " + w.params
  }

  class Client {
    var idCounter: uint32
    var responseChans: map<uint32, ResponseChan>
    var responseChanInfoMap: map<uint32, string>
    /** Every channel whose request was sent. */
    ghost var known: set<ResponseChan>

    /** The maps agree and every channel belongs to its own call. */
    ghost predicate Wired()
      reads this
    {
      && responseChans.Keys == responseChanInfoMap.Keys
      && (forall id :: id in responseChans ==> responseChans[id] in known)
      && (forall a, b :: a in known && b in known && a.call == b.call ==> a == b)
    }

    /** While the dispatcher runs, pending channels are open and pairwise distinct. */
    ghost predicate Valid()
      reads this, known
    {
      && Wired()
      && (forall id :: id in responseChans ==> !responseChans[id].closed)
      && (forall i, j :: i in responseChans && j in responseChans && responseChans[i] == responseChans[j] ==> i == j)
    }

    ghost function PendingCalls(): map<uint32, Spec.CallId>
      reads this`responseChans
    {
      map id | id in responseChans :: responseChans[id].call
    }

    ghost function ClosedCalls(): set<Spec.CallId>
      reads this`known, known
    {
      set c | c in known && c.closed :: c.call
    }

    /** The abstract dispatcher; it never panicked, because every close and send was allowed. */
    ghost function Abs(): Spec.Dispatcher
      reads this, known
    {
      Spec.Dispatcher(idCounter, PendingCalls(), responseChanInfoMap, ClosedCalls(), false)
    }

    /** Closing a set of known channels adds their calls to the closed ones. */
    twostate lemma ClosedGrows(chans: set<ResponseChan>)
      requires known == old(known) && chans <= known
      requires forall c :: c in known ==> c.closed == (old(c.closed) || c in chans)
      ensures ClosedCalls() == old(ClosedCalls()) + (set c | c in chans :: c.call)
    {}

    ghost function Parked(): set<Spec.CallId>
      reads this`known, known
    {
      set c | c in known && c.parked :: c.call
    }

    constructor (start: uint32)
      ensures Valid() && known == {}
      ensures Abs() == Spec.Dispatcher(start, map[], map[], {}, false)
    {
      idCounter, responseChans, responseChanInfoMap, known := start, map[], map[], {};
    }

    method HandleSend(w: MessageWrapper, encoded: bool)
      requires Valid()
      requires !w.responseChan.closed && forall c :: c in known ==> c.call != w.responseChan.call
      modifies this
      ensures Valid()
      ensures known == if encoded then old(known) + {w.responseChan} else old(known)
      ensures Abs() == Spec.HandleSend(old(Abs()), w.responseChan.call, Describe(w), encoded)
    {
      hide Describe;
      var id := idCounter;
      if !encoded {
        return;
      }
      idCounter := Wrap32(idCounter + 1);
      responseChans := responseChans[id := w.responseChan];
      responseChanInfoMap := responseChanInfoMap[id := Describe(w)];
      known := known + {w.responseChan};
      assert ClosedCalls() == old(ClosedCalls());
      hide ClosedCalls;
      assert PendingCalls() == old(PendingCalls())[id := w.responseChan.call];
    }

    method HandleRecv(resp: Response) returns (receipt: Spec.Receipt)
      requires Valid()
      modifies this`responseChans, this`responseChanInfoMap, known
      ensures Valid() && known == old(known)
      ensures Abs() == Spec.HandleRecv(old(Abs()), resp.id, old(Parked())).0
      ensures receipt == Spec.HandleRecv(old(Abs()), resp.id, old(Parked())).1
      ensures forall c :: c in known ==>
                c.received == if receipt == Spec.Delivered(c.call) then Some(resp) else old(c.received)
    {
      hide ClosedCalls, Parked;
      if resp.id !in responseChans {
        return Spec.Discarded;
      }
      EntryFacts(resp.id);
      var ch := responseChans[resp.id];
      responseChans := responseChans - {resp.id};
      responseChanInfoMap := responseChanInfoMap - {resp.id};
      receipt := HandOver(ch, resp);
      assert PendingCalls() == old(PendingCalls()) - {resp.id};
      hide PendingCalls;
    }

    /** Hands the response over if the caller is parked, and closes the channel either way. */
    method HandOver(ch: ResponseChan, resp: Response) returns (receipt: Spec.Receipt)
      requires ch in known && !ch.closed
      modifies ch`parked, ch`received, ch`closed
      ensures receipt == if old(ch.parked) then Spec.Delivered(ch.call) else Spec.Dropped(ch.call)
      ensures ch.received == if old(ch.parked) then Some(resp) else old(ch.received)
      ensures ch.closed && ClosedCalls() == old(ClosedCalls()) + {ch.call}
    {
      var ok := ch.TrySend(resp);
      receipt := if ok then Spec.Delivered(ch.call) else Spec.Dropped(ch.call);
      ch.Close();
      ClosedGrows({ch});
      assert (set c | c in {ch} :: c.call) == {ch.call};
    }

    /** The call of a pending entry is not closed, and is parked exactly when its channel is. */
    lemma EntryFacts(id: uint32)
      requires Valid() && id in responseChans
      ensures responseChans[id].call !in ClosedCalls()
      ensures responseChans[id].call in Parked() <==> responseChans[id].parked
    {}

    method HandleShutdown()
      requires Valid()
      modifies known
      ensures Wired() && known == old(known)
      ensures Abs() == Spec.HandleShutdown(old(Abs()))
    {
      OpenCallsApart();
      var rest := responseChans.Keys;
      while rest != {}
        invariant rest <= responseChans.Keys
        invariant forall id :: id in rest ==> !responseChans[id].closed
        invariant forall c :: c in known ==>
                    c.closed == (old(c.closed) || exists id :: id in responseChans.Keys - rest && responseChans[id] == c)
      {
        var id :| id in rest;
        responseChans[id].Close();
        rest := rest - {id};
      }
      ClosedGrows(responseChans.Values);
      ghost var pending := PendingCalls();
      assert (set c | c in responseChans.Values :: c.call) == pending.Values by {
        CallsOfPending();
      }
      assert Spec.Injective(pending);
      assert pending == old(PendingCalls());
      hide ClosedCalls, PendingCalls;
    }

    lemma CallsOfPending()
      ensures (set c | c in responseChans.Values :: c.call) == PendingCalls().Values
    {
      var pending := PendingCalls();
      forall c | c in responseChans.Values
        ensures c.call in pending.Values
      {
        var id :| id in responseChans && responseChans[id] == c;
        assert pending[id] == c.call;
      }
      forall x | x in pending.Values
        ensures exists c :: c in responseChans.Values && c.call == x
      {
        var id :| id in pending && pending[id] == x;
        assert responseChans[id] in responseChans.Values;
      }
    }

    /** An open channel's call is not among the closed ones. */
    lemma OpenCallsApart()
      requires Valid()
      ensures PendingCalls().Values * ClosedCalls() == {}
    {
      CallsOfPending();
    }
  }
}
