/** The dispatcher of the asynchronous JSON-RPC client: the state it owns and what each of
    its three handlers does to it, including the panics the host language would raise. */
module RpcDispatcher {
  import opened MachineInt

  /** A call and the response channel it made are identified by one number. */
  type CallId = nat

  /** idCounter, responseChans, responseChanInfoMap, the channels closed so far, and whether
      a channel was closed twice or sent on after close. */
  datatype Dispatcher = Dispatcher(
    idCounter: uint32,
    pending: map<uint32, CallId>,
    info: map<uint32, string>,
    closed: set<CallId>,
    panicked: bool)

  datatype Receipt = Discarded | Delivered(call: CallId) | Dropped(call: CallId)

  function HandleSend(d: Dispatcher, call: CallId, description: string, encoded: bool): Dispatcher {
    if !encoded then d
    else d.(idCounter := Wrap32(d.idCounter + 1),
            pending := d.pending[d.idCounter := call],
            info := d.info[d.idCounter := description])
  }

  /** The channel is unbuffered and the hand-off has a default case: the response reaches the
      caller only if the caller is already parked on the channel, and is dropped otherwise. */
  function HandleRecv(d: Dispatcher, id: uint32, parked: set<CallId>): (Dispatcher, Receipt) {
    if id !in d.pending then (d, Discarded)
    else
      var call := d.pending[id];
      (d.(pending := d.pending - {id},
          info := d.info - {id},
          closed := d.closed + {call},
          panicked := d.panicked || call in d.closed),
       if call in parked then Delivered(call) else Dropped(call))
  }

  predicate Injective(m: map<uint32, CallId>) {
    forall i, j :: i in m && j in m && m[i] == m[j] ==> i == j
  }

  /** Every pending channel is closed; the maps are left as they are. */
  function HandleShutdown(d: Dispatcher): Dispatcher {
    d.(closed := d.closed + d.pending.Values,
       panicked := d.panicked || !Injective(d.pending) || d.pending.Values * d.closed != {})
  }
}
