/** The replies of the commands an operation of the initiator runs, and what they amount to: when
    a load, a connect, a stop or a launch works, and what a load records. */
module NvmeOutcomes {
  import opened HostKernel
  import opened NvmeAddress
  import opened NvmeDevices
  import opened NvmeDiscovery
  import opened Wrappers

  const MAX_WAIT_DEVICE_RETRIES: nat := 60
  const MAX_CONNECT_TARGET_RETRIES: nat := 15
  const MAX_VALIDATION_RETRIES: nat := 60
  const HOST_PROC := "/host/proc"

  datatype NVMeTCPInfo = NVMeTCPInfo(
    subsystemNQN: string,
    uuid: string,
    transportAddress: string,
    transportServiceID: string,
    controllerName: string,
    namespaceName: string,
    nrIoQueues: int)

  datatype LonghornBlockDevice = LonghornBlockDevice(source: BlockDevice, exported: BlockDevice)

  const NO_DEVICE := BlockDevice("", 0, 0)

  datatype Connection = Reached(nqn: string, controller: string) | Unreached | Crashed

  /** One attempt at loading a device. */
  datatype LoadReplies = LoadReplies(scan: Scan, detected: Result<BlockDevice>)

  /** A reuse probe: the first load, and those of the waiting that follows, by attempt. */
  datatype ProbeReplies = ProbeReplies(first: LoadReplies, waits: nat -> LoadReplies)

  /** One attempt at connecting. */
  datatype ConnectReplies = ConnectReplies(
    discovered: Result<string>,
    scan: Scan,
    hostNQN: bool,
    hostID: bool,
    reply: ConnectReply,
    listing: Result<seq<Subsystem>>)

  datatype CleanupReplies = CleanupReplies(listing: Result<seq<Subsystem>>, disconnect: bool)

  /** Connecting, by attempt, then loading, by attempt, and cleaning up. */
  datatype PathReplies = PathReplies(connects: nat -> ConnectReplies, waits: nat -> LoadReplies, cleanup: CleanupReplies)

  datatype EndpointReplies = EndpointReplies(detected: Option<string>, deps: Result<seq<string>>)

  /** Which commands of replacing the device-mapper target work. */
  datatype DmOutcomes = DmOutcomes(flags: bool, state: bool, suspend: bool, sectors: bool, reload: bool, numbers: bool, resume: bool)

  /** Creating the device-mapper device; `ready` tells by attempt whether its node is there. */
  datatype CreateReplies = CreateReplies(sectors: bool, create: Option<(int, int)>, ready: nat -> bool, numbers: bool)

  /** Which commands of creating the endpoint node work. */
  datatype NodeOutcomes = NodeOutcomes(stat: bool, recheck: bool, remove: bool, make: bool)

  datatype LaunchReplies = LaunchReplies(dm: DmOutcomes, create: CreateReplies, node: NodeOutcomes)

  datatype StopReplies = StopReplies(removal: RemovalReply, node: bool, disconnect: bool, ublk: bool)

  datatype StartReplies = StartReplies(
    lock: bool,
    early: ProbeReplies,
    endpoint: EndpointReplies,
    stop: StopReplies,
    probe: ProbeReplies,
    path: PathReplies,
    launch: LaunchReplies)

  /** The file lock is needed only with a host proc directory, which must be the supported one. */
  predicate Locks(hostProc: string, works: bool) {
    hostProc == "" || (hostProc == HOST_PROC && works)
  }

  lemma LockingByCase(hostProc: string, works: bool)
    ensures Locks("", works)
    ensures Locks("/host/proc", works) <==> works
    ensures hostProc != "" && hostProc != "/host/proc" ==> !Locks(hostProc, works)
  {}

  // Loading.

  /** Discovery finds one device, and it has a controller. */
  predicate FindsOne(scan: Scan, ip: string, port: string, nqn: string) {
    var found := Devices(scan, ip, port, nqn);
    found.Ok? && |found.value| == 1 && found.value[0].controllers != []
  }

  predicate Loads(o: LoadReplies, ip: string, port: string, nqn: string) {
    FindsOne(o.scan, ip, port, nqn) && Named(o.detected).Ok?
  }

  /** Exactly one position below n is among these. */
  ghost predicate One(at: seq<nat>, n: nat) {
    exists i: nat :: IsOnly(at, n, i)
  }

  ghost predicate IsOnly(at: seq<nat>, n: nat, i: nat) {
    i < n && i in at && forall j: nat :: j in at ==> j == i
  }

  lemma OneMember(at: seq<nat>, n: nat)
    requires Increasing(at, n)
    ensures |at| == 1 <==> One(at, n)
  {
    if |at| == 1 {
      SingleMember(at, n);
    } else if |at| > 1 {
      TwoMembers(at, n);
    }
    hide Increasing;
  }

  lemma SingleMember(at: seq<nat>, n: nat)
    requires |at| == 1 && at[0] < n
    ensures One(at, n)
  {
    assert at == [at[0]];
    assert IsOnly(at, n, at[0]);
  }

  lemma TwoMembers(at: seq<nat>, n: nat)
    requires Increasing(at, n) && |at| > 1
    ensures !One(at, n)
  {
    var a, b := at[0], at[1];
    assert a in at && b in at && a < b < n;
    hide Increasing;
  }

  /** Row i, and no other, matches directly. */
  ghost predicate OnlyDirect(scan: Scan, i: nat, ip: string, port: string, nqn: string)
    requires scan.list.Ok?
  {
    && i < |scan.list.value| && Direct(scan, scan.list.value[i], ip, port, nqn)
    && forall j: nat :: j < |scan.list.value| && Direct(scan, scan.list.value[j], ip, port, nqn) ==> j == i
  }

  ghost predicate OneDirect(scan: Scan, ip: string, port: string, nqn: string)
    requires scan.list.Ok?
  {
    exists i: nat :: OnlyDirect(scan, i, ip, port, nqn)
  }

  ghost predicate NoneDirect(scan: Scan, ip: string, port: string, nqn: string)
    requires scan.list.Ok?
  {
    forall i :: 0 <= i < |scan.list.value| ==> !Direct(scan, scan.list.value[i], ip, port, nqn)
  }

  /** Listed subsystem i, and no other, serves the request. */
  ghost predicate OnlyServing(subsystems: seq<Subsystem>, i: nat, ip: string, port: string, nqn: string) {
    && i < |subsystems| && Serves(subsystems[i], ip, port, nqn)
    && forall j: nat :: j < |subsystems| && Serves(subsystems[j], ip, port, nqn) ==> j == i
  }

  /** One listed subsystem serves the request, beside a row of that name. */
  ghost predicate OneRerouted(scan: Scan, ip: string, port: string, nqn: string)
    requires scan.list.Ok?
  {
    && scan.all.Ok?
    && (exists i :: 0 <= i < |scan.list.value| && Owned(scan, scan.list.value[i], nqn))
    && (exists i: nat :: OnlyServing(scan.all.value, i, ip, port, nqn))
  }

  lemma FoundHasController(scan: Scan, ip: string, port: string, nqn: string)
    requires nqn != ""
    ensures FindsOne(scan, ip, port, nqn) <==> Devices(scan, ip, port, nqn).Ok? && |Devices(scan, ip, port, nqn).value| == 1
  {
    if Devices(scan, ip, port, nqn).Ok? {
      DevicesMatchRequest(scan, ip, port, nqn);
      assert |Devices(scan, ip, port, nqn).value| == 1 ==> Devices(scan, ip, port, nqn).value[0] in Devices(scan, ip, port, nqn).value;
    }
    hide Devices, AddressMatches;
  }

  lemma AmbiguousFails(scan: Scan, ip: string, port: string, nqn: string)
    requires scan.list.Err? || exists i :: 0 <= i < |scan.list.value| && Ambiguous(scan, scan.list.value[i])
    ensures Devices(scan, ip, port, nqn).Err?
  {
    var at := UnfilteredDiscovery(scan, ip, port);
    hide ScanRows, Select, Fallback, ScanOf, Ambiguous;
  }

  /** When a load of a named subsystem works, in terms of what the host printed: the listing
      succeeds and is unambiguous; exactly one row matches directly, or none does and exactly one
      listed subsystem serves the request beside a row of that name; and the device is detected. */
  lemma LoadsIff(o: LoadReplies, ip: string, port: string, nqn: string)
    requires nqn != ""
    ensures Loads(o, ip, port, nqn) <==>
              && o.detected.Ok? && o.detected.value.name != ""
              && o.scan.list.Ok?
              && (forall i :: 0 <= i < |o.scan.list.value| ==> !Ambiguous(o.scan, o.scan.list.value[i]))
              && (OneDirect(o.scan, ip, port, nqn) || (NoneDirect(o.scan, ip, port, nqn) && OneRerouted(o.scan, ip, port, nqn)))
  {
    hide Devices, Ambiguous, Direct, Serves, Owned, Describes, Increasing;
    FoundHasController(o.scan, ip, port, nqn);
    if o.scan.list.Err? || exists i :: 0 <= i < |o.scan.list.value| && Ambiguous(o.scan, o.scan.list.value[i]) {
      AmbiguousFails(o.scan, ip, port, nqn);
    } else if NoneDirect(o.scan, ip, port, nqn) {
      var via, owner := FallbackDiscovery(o.scan, ip, port, nqn);
      if Devices(o.scan, ip, port, nqn).Ok? {
        OneMember(via, |o.scan.all.value|);
        OneReroutedIsOne(o.scan, via, ip, port, nqn);
      }
    } else {
      var at := DirectDiscovery(o.scan, ip, port, nqn);
      OneMember(at, |o.scan.list.value|);
      OneDirectIsOne(o.scan, at, ip, port, nqn);
    }
  }

  lemma OneDirectIsOne(scan: Scan, at: seq<nat>, ip: string, port: string, nqn: string)
    requires scan.list.Ok? && Increasing(at, |scan.list.value|)
    requires forall i: nat :: i < |scan.list.value| ==> (Direct(scan, scan.list.value[i], ip, port, nqn) <==> i in at)
    ensures One(at, |scan.list.value|) <==> OneDirect(scan, ip, port, nqn)
  {
    hide Direct;
    assert forall j :: j in at ==> 0 <= j < |scan.list.value|;
    forall i: nat
      ensures OnlyDirect(scan, i, ip, port, nqn) <==> IsOnly(at, |scan.list.value|, i)
    {}
    hide OnlyDirect, IsOnly, Increasing;
  }

  lemma OneReroutedIsOne(scan: Scan, via: seq<nat>, ip: string, port: string, nqn: string)
    requires scan.list.Ok? && scan.all.Ok? && Increasing(via, |scan.all.value|)
    requires exists i :: 0 <= i < |scan.list.value| && Owned(scan, scan.list.value[i], nqn)
    requires forall i: nat :: i < |scan.all.value| ==> (Serves(scan.all.value[i], ip, port, nqn) <==> i in via)
    ensures One(via, |scan.all.value|) <==> OneRerouted(scan, ip, port, nqn)
  {
    hide Serves, Owned;
    assert forall j :: j in via ==> 0 <= j < |scan.all.value|;
    forall i: nat
      ensures OnlyServing(scan.all.value, i, ip, port, nqn) <==> IsOnly(via, |scan.all.value|, i)
    {}
    hide OnlyServing, IsOnly, Increasing;
  }

  /** Some attempt of a waiting loads. */
  ghost predicate WaitLoads(waits: nat -> LoadReplies, ip: string, port: string, nqn: string) {
    exists k: nat :: k < MAX_WAIT_DEVICE_RETRIES && Loads(waits(k), ip, port, nqn)
  }

  /** A record and a source are of the one device that a scan finds for a request: its one, named
      namespace, and one of its controllers with that controller's address; and the source is the
      block device detected at that namespace's path. */
  ghost predicate Shows(scan: Scan, detected: Detection, info: NVMeTCPInfo, source: BlockDevice, ip: string, port: string, nqn: string) {
    var found := Devices(scan, ip, port, nqn);
    && found.Ok? && |found.value| == 1 && OneNamespace(found.value[0])
    && info.namespaceName == found.value[0].namespaces[0].name
    && (exists c :: c in found.value[0].controllers && info.controllerName == c.name &&
          (info.transportAddress, info.transportServiceID) == ParseAddress(c.address))
    && source.name != ""
    && detected == Detection(DevPath(info.namespaceName), source)
  }

  lemma ShownIsNamed(scan: Scan, detected: Detection, info: NVMeTCPInfo, source: BlockDevice, ip: string, port: string, nqn: string)
    requires Shows(scan, detected, info, source, ip, port, nqn)
    ensures source.name != "" && info.namespaceName != ""
  {
    hide Devices, ParseAddress;
  }

  /** The record after a load: that of the device found, also if detecting it fails. */
  function AfterLoad(info: NVMeTCPInfo, o: LoadReplies, ip: string, port: string, nqn: string): NVMeTCPInfo {
    if !FindsOne(o.scan, ip, port, nqn) then info
    else
      var d := Devices(o.scan, ip, port, nqn).value[0];
      DevicesHaveOneNamespace(o.scan, ip, port, nqn);
      assert d in Devices(o.scan, ip, port, nqn).value && OneNamespace(d);
      SelectionIsListed(d, ip, port, info.controllerName);
      var c := SelectController(d, ip, port, info.controllerName).value;
      info.(controllerName := c.name,
            namespaceName := d.namespaces[0].name,
            transportAddress := ParseAddress(c.address).0,
            transportServiceID := ParseAddress(c.address).1)
  }

  /** Sixty attempts are made: a load that works at any of them is found, and none later. */
  lemma WaitsAreSixty(waits: nat -> LoadReplies, k: nat, ip: string, port: string, nqn: string)
    ensures k <= 59 && Loads(waits(k), ip, port, nqn) ==> WaitLoads(waits, ip, port, nqn)
    ensures (forall j: nat :: j <= 59 ==> !Loads(waits(j), ip, port, nqn)) ==> !WaitLoads(waits, ip, port, nqn)
  {
    hide Loads;
  }

  /** The record after waiting from attempt k on: attempts are made until one loads. */
  function AfterWait(info: NVMeTCPInfo, waits: nat -> LoadReplies, k: nat, ip: string, port: string): NVMeTCPInfo
    decreases MAX_WAIT_DEVICE_RETRIES - k
  {
    if k >= MAX_WAIT_DEVICE_RETRIES then info
    else
      var next := AfterLoad(info, waits(k), ip, port, info.subsystemNQN);
      if Loads(waits(k), ip, port, info.subsystemNQN) then next else AfterWait(next, waits, k + 1, ip, port)
  }

  predicate PathOf(info: NVMeTCPInfo, ip: string, port: string) {
    info.transportAddress == ip && info.transportServiceID == port
  }

  function AfterFirst(info: NVMeTCPInfo, o: ProbeReplies): NVMeTCPInfo {
    AfterLoad(info, o.first, info.transportAddress, info.transportServiceID, info.subsystemNQN)
  }

  /** The recorded path can be loaded. */
  predicate ProbeLoads(info: NVMeTCPInfo, o: ProbeReplies) {
    Loads(o.first, info.transportAddress, info.transportServiceID, info.subsystemNQN)
  }

  /** The recorded path can be loaded, is the requested one, and gets ready. */
  ghost predicate Reuses(info: NVMeTCPInfo, o: ProbeReplies, ip: string, port: string) {
    ProbeLoads(info, o) && PathOf(AfterFirst(info, o), ip, port) && WaitLoads(o.waits, ip, port, info.subsystemNQN)
  }

  function AfterProbe(info: NVMeTCPInfo, o: ProbeReplies, ip: string, port: string): NVMeTCPInfo {
    if ProbeLoads(info, o) && PathOf(AfterFirst(info, o), ip, port)
    then AfterWait(AfterFirst(info, o), o.waits, 0, ip, port)
    else AfterFirst(info, o)
  }

  // Connecting.

  predicate FindsDevice(scan: Scan, ip: string, port: string, nqn: string) {
    var found := Devices(scan, ip, port, nqn);
    found.Ok? && found.value != []
  }

  /** Discovery finds a device whose controller list is empty. */
  predicate FindsBareDevice(scan: Scan, ip: string, port: string, nqn: string) {
    var found := Devices(scan, ip, port, nqn);
    found.Ok? && found.value != [] && found.value[0].controllers == []
  }

  /** Discovery finds a device, and its first controller has this name. */
  predicate FindsFirst(scan: Scan, ip: string, port: string, nqn: string, controller: string) {
    var found := Devices(scan, ip, port, nqn);
    found.Ok? && found.value != [] && found.value[0].controllers != [] && found.value[0].controllers[0].name == controller
  }

  /** The subsystem to connect: the configured one, or else the one discovered. */
  function Target(configured: string, o: ConnectReplies): Option<string> {
    if configured != "" then Some(configured)
    else if o.discovered.Ok? then Some(o.discovered.value) else None
  }

  /** What connecting a target answers. */
  function Answer(o: ConnectReplies, ip: string, port: string, nqn: string): ConnectReply {
    var found := Devices(o.scan, ip, port, nqn);
    if found.Ok? && found.value != [] then
      if found.value[0].controllers == [] then Panicked else Connected(found.value[0].controllers[0].name)
    else if !o.hostNQN || !o.hostID || o.reply.Panicked? then Refused
    else o.reply
  }

  /** What one attempt settles, if anything. */
  function Settles(o: ConnectReplies, configured: string, ip: string, port: string): Option<Connection> {
    var target := Target(configured, o);
    if target.None? then None
    else
      match Answer(o, ip, port, target.value)
      case Connected(name) => Some(Reached(target.value, name))
      case Panicked => Some(Crashed)
      case Refused => None
      case AlreadyConnected =>
        if o.listing.Err? then Some(Unreached)
        else
          var route := FirstRoute(o.listing.value, target.value, ip, port);
          if route.Some? then Some(Reached(target.value, route.value.name)) else Some(Unreached)
  }

  /** The connection that the attempts from k on come to. */
  function ConnectionOf(connects: nat -> ConnectReplies, k: nat, max: nat, configured: string, ip: string, port: string): Connection
    decreases max - k
  {
    if k >= max then Unreached
    else
      var settled := Settles(connects(k), configured, ip, port);
      if settled.Some? then settled.value else ConnectionOf(connects, k + 1, max, configured, ip, port)
  }

  /** The first attempt that settles anything decides; nobody is reached without one. */
  lemma {:induction false} FirstSettledDecides(connects: nat -> ConnectReplies, k: nat, max: nat, configured: string, ip: string, port: string)
    ensures forall m: nat :: k <= m < max && Settles(connects(m), configured, ip, port).Some? &&
                             (forall j: nat :: k <= j < m ==> Settles(connects(j), configured, ip, port).None?) ==>
              ConnectionOf(connects, k, max, configured, ip, port) == Settles(connects(m), configured, ip, port).value
    ensures (forall j: nat :: k <= j < max ==> Settles(connects(j), configured, ip, port).None?) ==>
              ConnectionOf(connects, k, max, configured, ip, port) == Unreached
    decreases max - k
  {
    hide Settles;
    if k < max {
      FirstSettledDecides(connects, k + 1, max, configured, ip, port);
    }
  }

  /** An attempt settles nothing, and is repeated, exactly if no name is configured and none is
      discovered, or no device is found and a read or the connect command is refused. An answer
      that the path is connected already settles the matter, with or without a controller. */
  lemma RepeatedIff(o: ConnectReplies, configured: string, ip: string, port: string)
    ensures Settles(o, configured, ip, port).None? <==>
              || (configured == "" && o.discovered.Err?)
              || (var nqn := if configured != "" then configured else o.discovered.value;
                  !FindsDevice(o.scan, ip, port, nqn) &&
                  (!o.hostNQN || !o.hostID || o.reply.Refused? || o.reply.Panicked?))
  {
    hide Devices, FirstRoute;
  }

  /** Fifteen attempts are made: one that settles the matter counts if all before it were refused,
      and nobody is reached if all fifteen were. */
  lemma ConnectsAreFifteen(connects: nat -> ConnectReplies, m: nat, configured: string, ip: string, port: string)
    ensures m <= 14 && Settles(connects(m), configured, ip, port).Some? &&
            (forall j: nat :: j < m ==> Settles(connects(j), configured, ip, port).None?) ==>
              ConnectionOf(connects, 0, MAX_CONNECT_TARGET_RETRIES, configured, ip, port) ==
                Settles(connects(m), configured, ip, port).value
    ensures (forall j: nat :: j <= 14 ==> Settles(connects(j), configured, ip, port).None?) ==>
              ConnectionOf(connects, 0, MAX_CONNECT_TARGET_RETRIES, configured, ip, port) == Unreached
  {
    hide Settles;
    FirstSettledDecides(connects, 0, MAX_CONNECT_TARGET_RETRIES, configured, ip, port);
    hide ConnectionOf;
  }

  /** Connecting reaches a named controller, and its device loads. */
  ghost predicate Connects(o: PathReplies, configured: string, ip: string, port: string) {
    var c := ConnectionOf(o.connects, 0, MAX_CONNECT_TARGET_RETRIES, configured, ip, port);
    c.Reached? && c.controller != "" && WaitLoads(o.waits, ip, port, c.nqn)
  }

  /** The disconnects that cleaning up a path issues: of the first listed controller there. */
  function TakenDown(o: CleanupReplies, nqn: string, ip: string, port: string): seq<Disconnect> {
    if o.listing.Err? then []
    else
      var route := FirstRoute(o.listing.value, nqn, ip, port);
      if route.None? then [] else [ByController(route.value.name, o.listing.value)]
  }

  // The endpoint and the device-mapper device.

  /** `filepath.Join("/dev", name)` for a name without slashes, or "/". */
  function DevPath(name: string): string {
    if name == "." || name == "/" then "/dev"
    else if name == ".." then "/"
    else "/dev/" + name
  }

  lemma DevPathOfName(name: string)
    requires name != "." && name != ".." && '/' !in name
    ensures DevPath(name) == "/dev/" + name
  {
    assert name == "/" ==> '/' in name;
  }

  /** An existing endpoint can be taken over: a block node stands there and, unless busy, its
      device depends on the recorded namespace. */
  predicate EndpointLoads(o: EndpointReplies, node: Option<Node>, namespaceName: string, busy: bool) {
    && o.detected.Some? && o.detected.value != "" && node.Some? && node.value.isBlock
    && o.deps.Ok?
    && (busy || namespaceName == "" || namespaceName in o.deps.value)
  }

  /** When an endpoint can be taken over, by case: a busy device, or no recorded namespace, spares
      the look at the dependencies, but not reading them. */
  lemma EndpointLoadsByCase(name: string, deps: seq<string>, major: int, minor: int, namespaceName: string, busy: bool)
    requires name != ""
    ensures var o, node := EndpointReplies(Some(name), Ok(deps)), Some(Node(true, major, minor));
            && EndpointLoads(o, node, namespaceName, true)
            && EndpointLoads(o, node, "", busy)
            && (namespaceName != "" ==> (EndpointLoads(o, node, namespaceName, false) <==> namespaceName in deps))
            && !EndpointLoads(o, None, namespaceName, busy)
            && !EndpointLoads(o, Some(Node(false, major, minor)), namespaceName, busy)
            && !EndpointLoads(o.(deps := Err), node, namespaceName, busy)
            && !EndpointLoads(o.(detected := None), node, namespaceName, busy)
  {}

  /** The replacement gets as far as reading the numbers of the reloaded device. */
  predicate Renumbers(o: DmOutcomes, dm: Option<DmDevice>) {
    && dm.Some?
    && o.flags && o.state && (dm.value.suspended || o.suspend)
    && o.sectors && o.reload && o.numbers
  }

  predicate Replaces(o: DmOutcomes, dm: Option<DmDevice>) {
    Renumbers(o, dm) && o.resume
  }

  /** A device-mapper device can be created where there is none. */
  ghost predicate Creates(o: CreateReplies) {
    o.sectors && o.create.Some? && o.numbers && exists k: nat :: k < MAX_VALIDATION_RETRIES && o.ready(k)
  }

  /** Replacing needs every reply, and a device; only the suspend of a suspended device does not
      count. Reading the numbers needs all but the last. */
  lemma ReplacingNeedsEveryReply(o: DmOutcomes, dm: Option<DmDevice>)
    ensures Replaces(o, None) == Renumbers(o, None) == false
    ensures dm.Some? ==>
              var counted := if dm.value.suspended then o.(suspend := true) else o;
              && (Replaces(o, dm) <==> counted == DmOutcomes(true, true, true, true, true, true, true))
              && (Renumbers(o, dm) <==> counted.(resume := true) == DmOutcomes(true, true, true, true, true, true, true))
  {}

  predicate IsNodeOf(node: Option<Node>, device: BlockDevice) {
    node == Some(Node(true, device.major, device.minor))
  }

  /** The endpoint can be created for a device: its node is there to be reused, or can be made,
      after removing another one if need be. */
  predicate NodeCreatable(o: NodeOutcomes, node: Option<Node>, device: BlockDevice, path: string) {
    && o.stat
    && (if node.None? then path != "" && o.make
        else (o.recheck && IsNodeOf(node, device)) || (o.remove && path != "" && o.make))
  }

  /** When an endpoint can be created, by what stands there: nothing, the device's own node, or
      anything else. */
  lemma NodeCreatableByCase(o: NodeOutcomes, node: Option<Node>, device: BlockDevice, path: string)
    ensures NodeCreatable(o, None, device, path) <==> o.stat && o.make && path != ""
    ensures NodeCreatable(o.(recheck := true), Some(Node(true, device.major, device.minor)), device, path) <==> o.stat
    ensures node.Some? && node.value != Node(true, device.major, device.minor) ==>
              (NodeCreatable(o, node, device, path) <==> o.stat && o.remove && o.make && path != "")
    ensures node.Some? ==>
              (NodeCreatable(o.(recheck := false), node, device, path) <==> o.stat && o.remove && o.make && path != "")
  {}

  // Stopping.

  /** Cleaning up gets past the device-mapper device: it is removed, is not there, or is in use
      and that is no error; and the endpoint node, if there is a path for one, is removed. */
  predicate CleansUp(o: StopReplies, dm: Option<DmDevice>, path: string, failIfBusy: bool) {
    (o.removal.Removable? || (o.removal.InUse? && (dm.None? || !failIfBusy))) && (path == "" || o.node)
  }

  predicate StaysBusy(o: StopReplies, dm: Option<DmDevice>, path: string, failIfBusy: bool) {
    o.removal.InUse? && dm.Some? && (failIfBusy || path == "" || o.node)
  }

  /** When cleaning up works, by the device-mapper device: one that is missing is no error, and
      one in use is none unless asked for. */
  lemma CleansUpByCase(removal: RemovalReply, node: bool, disconnect: bool, ublk: bool, dm: DmDevice, path: string, failIfBusy: bool)
    ensures var o := StopReplies(removal, node, disconnect, ublk);
            && (CleansUp(o, None, path, failIfBusy) <==> removal != Unremovable && (path == "" || node))
            && (removal == Removable ==> (CleansUp(o, Some(dm), path, failIfBusy) <==> path == "" || node))
            && (removal == InUse ==> (CleansUp(o, Some(dm), path, failIfBusy) <==> !failIfBusy && (path == "" || node)))
            && (removal == Unremovable ==> !CleansUp(o, Some(dm), path, failIfBusy))
  {}

  lemma BusyIsAnError(o: StopReplies, dm: Option<DmDevice>, path: string)
    ensures StaysBusy(o, dm, path, true) ==> !CleansUp(o, dm, path, true)
  {}

  function Forgotten(info: NVMeTCPInfo): NVMeTCPInfo {
    info.(controllerName := "", namespaceName := "", transportAddress := "", transportServiceID := "")
  }

  // Relaunching.

  /** Every step of a relaunch works, up to the endpoint node: stopping if asked to, ensuring the
      path from the record that leaves, and creating a device-mapper device unless it is skipped
      or stayed busy. */
  ghost predicate Relaunches(o: StartReplies, info: NVMeTCPInfo, dm: Option<DmDevice>, path: string,
                             ip: string, port: string, cleanup: bool, stop: bool) {
    var record := if stop then Forgotten(info) else info;
    && (stop ==> o.stop.disconnect && (cleanup ==> CleansUp(o.stop, dm, path, false)))
    && (Reuses(record, o.probe, ip, port) || Connects(o.path, info.subsystemNQN, ip, port))
    && (cleanup && stop && !StaysBusy(o.stop, dm, path, false) ==> Creates(o.launch.create))
  }

  /** The node at the endpoint when a relaunch comes to create it. */
  function NodeLeft(node: Option<Node>, path: string, cleanup: bool, stop: bool): Option<Node> {
    if stop && cleanup && path != "" then None else node
  }
}
