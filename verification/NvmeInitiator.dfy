/** The NVMe/TCP initiator: loading device state, keeping a path connected, and starting and
    stopping the endpoint. Methods update the initiator step by step and may fail anywhere. */
module NvmeInitiator {
  import opened HostKernel
  import opened NvmeDevices
  import opened NvmeOutcomes
  import opened Wrappers
  import NvmeAddress

  datatype UblkInfo = UblkInfo(bdevName: string)

  /** Connects unless the scan made for it already finds the device. The first controller is
      indexed unchecked, which fails exactly when an unfiltered scan puts a device without
      controllers first. */
  method ConnectTarget(host: Host, ip: string, port: string, nqn: string, nrIoQueues: int, o: ConnectReplies) returns (reply: ConnectReply)
    modifies host`scanned, host`connects
    ensures reply == Answer(o, ip, port, nqn) && host.scanned == o.scan
    ensures reply.Panicked? <==> nqn == "" && FindsBareDevice(o.scan, ip, port, nqn)
    ensures FindsDevice(o.scan, ip, port, nqn) ==> host.connects == old(host.connects)
    ensures !FindsDevice(o.scan, ip, port, nqn) ==>
              reply == (if o.hostNQN && o.hostID && !o.reply.Panicked? then o.reply else Refused) &&
              host.connects == old(host.connects) +
                (if reply.Connected? then [ConnectCall(nqn, ip, port, nrIoQueues, reply.controller)] else [])
    ensures reply.Connected? ==> FindsFirst(o.scan, ip, port, nqn, reply.controller) || host.connects != old(host.connects)
  {
    host.NvmeScan(o.scan);
    var devices := GetDevices(ip, port, nqn, o.scan);
    if nqn != "" && devices.Ok? { DevicesMatchRequest(o.scan, ip, port, nqn); }
    hide Devices;
    if devices.Ok? && |devices.value| > 0 {
      assert nqn != "" ==> devices.value[0] in devices.value;
      if |devices.value[0].controllers| == 0 {
        return Panicked;
      }
      return Connected(devices.value[0].controllers[0].name);
    }
    if !o.hostNQN {
      return Refused;
    }
    if !o.hostID {
      return Refused;
    }
    reply := host.Connect(nqn, ip, port, nrIoQueues, o.reply);
  }

  /** One listed row whose single subsystem has no path is enough for that. */
  lemma ConnectCanPanic(ip: string, port: string) returns (scan: Scan)
    ensures FindsBareDevice(scan, ip, port, "")
  {
    scan := OneRow(Subsystem("", "", []), CliDevice("", 1), Err);
  }

  /** Disconnects the first controller of exactly this subsystem, address and port, if any. */
  method DisconnectController(host: Host, nqn: string, ip: string, port: string, o: CleanupReplies) returns (ok: bool)
    modifies host`listing, host`listed, host`disconnects
    ensures host.disconnects == old(host.disconnects) + TakenDown(o, nqn, ip, port)
    ensures ok <==> o.listing.Ok? && (TakenDown(o, nqn, ip, port) == [] || o.disconnect)
    ensures OnlyDisconnects(old(host.disconnects), host.disconnects, nqn, ip, port)
    ensures DisconnectTried(host, old(host.disconnects), nqn, ip, port)
  {
    var subsystems := host.ListSubsystems(o.listing);
    if subsystems.Err? {
      return false;
    }
    var route := FindRoute(subsystems.value, nqn, ip, port);
    FirstRouteFinds(subsystems.value, nqn, ip, port);
    if route.None? {
      return true;
    }
    ok := host.DisconnectController(route.value.name, o.disconnect);
    assert RouteOf(subsystems.value, route.value, nqn, ip, port);
  }

  /** The command names a controller that the host listed under this subsystem at this address. */
  ghost predicate Targets(d: Disconnect, nqn: string, ip: string, port: string) {
    d.ByController? && exists p :: RouteOf(d.listing, p, nqn, ip, port) && p.name == d.name
  }

  /** At most one disconnect was added, and only of such a controller. */
  ghost predicate OnlyDisconnects(before: seq<Disconnect>, after: seq<Disconnect>, nqn: string, ip: string, port: string) {
    || after == before
    || (|after| == |before| + 1 && before < after && Targets(after[|before|], nqn, ip, port))
  }

  /** A disconnect was sent, unless listing failed or listed no such controller. */
  ghost predicate DisconnectTried(host: Host, before: seq<Disconnect>, nqn: string, ip: string, port: string)
    reads host`disconnects, host`listed, host`listing
  {
    |host.disconnects| == |before| + 1 || !host.listed || forall p :: !RouteOf(host.listing, p, nqn, ip, port)
  }

  /** The last listing has the controller under this name at exactly this address. */
  ghost predicate Listed(host: Host, ip: string, port: string, nqn: string, controller: string)
    reads host`listed, host`listing
  {
    host.listed && exists p :: RouteOf(host.listing, p, nqn, ip, port) && p.name == controller
  }

  /** What stands behind the name of a connected controller: it is the first controller of the
      device that the last scan found for the request, or the last listing has it at exactly this
      address, or the last connect command made it there. */
  ghost predicate Backed(host: Host, ip: string, port: string, nqn: string, nrIoQueues: int, controller: string)
    reads host`scanned, host`listed, host`listing, host`connects
  {
    || FindsFirst(host.scanned, ip, port, nqn, controller)
    || Listed(host, ip, port, nqn, controller)
    || (host.connects != [] && host.connects[|host.connects| - 1] == ConnectCall(nqn, ip, port, nrIoQueues, controller))
  }

  /** The requested path is recorded, gets ready, and the endpoint can be taken over: a start
      finds the initiator up. */
  ghost predicate FoundUp(info: NVMeTCPInfo, node: Option<Node>, ip: string, port: string, o: StartReplies) {
    && Reuses(info, o.early, ip, port)
    && EndpointLoads(o.endpoint, node, AfterProbe(info, o.early, ip, port).namespaceName, false)
  }

  /** The path of the device node of a volume. */
  function LonghornDevicePath(name: string): string {
    "/dev/longhorn/" + name
  }

  class Initiator {
    const name: string
    const endpoint: string
    const hostProc: string
    const host: Host
    const ublkInfo: Option<UblkInfo>
    var info: Option<NVMeTCPInfo>
    var dev: Option<LonghornBlockDevice>
    var isUp: bool

    predicate Valid()
      reads this
    {
      && (info.Some? ==> info.value.subsystemNQN != "")
      && (isUp ==> dev.Some?)
    }

    constructor (name: string, endpoint: string, hostProc: string, host: Host, info: Option<NVMeTCPInfo>, ublkInfo: Option<UblkInfo>)
      requires info.Some? ==> info.value.subsystemNQN != ""
      ensures Valid()
      ensures this.name == name && this.endpoint == endpoint && this.hostProc == hostProc && this.host == host
      ensures this.info == info && this.ublkInfo == ublkInfo && dev == None && !isUp
    {
      this.name, this.endpoint, this.hostProc, this.host := name, endpoint, hostProc, host;
      this.info, this.ublkInfo, dev, isUp := info, ublkInfo, None, false;
    }

    /** Creates an initiator exactly when the arguments are in order and a command executor can
        be had (`executor`). */
    static method NewInitiator(name: string, hostProc: string, host: Host, info: Option<NVMeTCPInfo>,
                               ublkInfo: Option<UblkInfo>, executor: bool) returns (r: Option<Initiator>)
      ensures r.Some? <==>
                && name != "" && executor
                && info.Some? != ublkInfo.Some?
                && (info.Some? ==> info.value.subsystemNQN != "")
                && (ublkInfo.Some? ==> ublkInfo.value.bdevName != "")
      ensures r.Some? ==> fresh(r.value) && r.value.Valid() && r.value.dev == None && !r.value.isUp
      ensures r.Some? ==> r.value.name == name && r.value.endpoint == "/dev/longhorn/" + name && r.value.hostProc == hostProc
      ensures r.Some? ==> r.value.host == host && r.value.info == info && r.value.ublkInfo == ublkInfo
    {
      if name == "" {
        return None;
      }
      if info.Some? == ublkInfo.Some? {
        return None;
      }
      if info.Some? && info.value.subsystemNQN == "" {
        return None;
      }
      if ublkInfo.Some? && ublkInfo.value.bdevName == "" {
        return None;
      }
      if !executor {
        return None;
      }
      var i := new Initiator(name, LonghornDevicePath(name), hostProc, host, info, ublkInfo);
      r := Some(i);
    }

    /** The recorded path is this address and port. */
    predicate PathIs(address: string, port: string)
      reads this
    {
      info.Some? && info.value.transportAddress == address && info.value.transportServiceID == port
    }

    /** Some address and some port are recorded. */
    predicate PathKnown()
      reads this
    {
      info.Some? && info.value.transportAddress != "" && info.value.transportServiceID != ""
    }

    twostate predicate SamePath()
      reads this
    {
      old(info).Some? && PathIs(old(info).value.transportAddress, old(info).value.transportServiceID)
    }

    /** The fields that only a connect may change, and the connect only if it is told a name. */
    twostate predicate IdentityKept()
      reads this
    {
      && old(info).Some? == info.Some?
      && (info.Some? ==>
            && info.value.subsystemNQN == old(info).value.subsystemNQN
            && info.value.uuid == old(info).value.uuid
            && info.value.nrIoQueues == old(info).value.nrIoQueues)
    }

    // Loading device state.

    /** Record and source are those of the device that the last scan found for this request. */
    ghost predicate LoadedFrom(address: string, port: string, nqn: string)
      reads this, host`scanned, host`detected
    {
      info.Some? && dev.Some? && Shows(host.scanned, host.detected, info.value, dev.value.source, address, port, nqn)
    }

    method LoadNVMeDeviceInfoWithoutLock(address: string, port: string, nqn: string, o: LoadReplies) returns (ok: bool)
      modifies this`info, this`dev, host`scanned, host`detected
      ensures ok <==> info.Some? && Loads(o, address, port, nqn)
      ensures info == if old(info).Some? then Some(AfterLoad(old(info).value, o, address, port, nqn)) else None
      ensures dev == if ok then Some(LonghornBlockDevice(o.detected.value, NO_DEVICE)) else old(dev)
      ensures IdentityKept()
      ensures ok ==> LoadedFrom(address, port, nqn)
      ensures ok && address != "" && port != "" && nqn != "" ==> PathIs(address, port)
      ensures address != "" && port != "" && nqn != "" ==> info == old(info) || PathIs(address, port)
    {
      if info.None? {
        return false;
      }
      host.NvmeScan(o.scan);
      var devices := GetDevices(address, port, nqn, o.scan);
      if devices.Ok? { DevicesHaveOneNamespace(o.scan, address, port, nqn); }
      if devices.Err? {
        return false;
      }
      if |devices.value| != 1 {
        return false;
      }
      var device := devices.value[0];
      assert device in devices.value;
      if |device.namespaces| != 1 {
        return false;
      }
      SelectionIsListed(device, address, port, info.value.controllerName);
      if address != "" && port != "" && nqn != "" {
        SelectsByAddress(o.scan, address, port, nqn, device, info.value.controllerName);
      }
      hide Devices, SelectController, NvmeAddress.ParseAddress;
      var controller := SelectControllerForNVMeDevice(device, address, port, info.value.controllerName);
      if controller.Err? {
        return false;
      }
      var ip, serviceID := NvmeAddress.GetIPAndPortFromControllerAddress(controller.value.address);
      info := Some(info.value.(controllerName := controller.value.name,
                               namespaceName := device.namespaces[0].name,
                               transportAddress := ip,
                               transportServiceID := serviceID));
      var found := host.DetectDevice(DevPath(info.value.namespaceName), o.detected);
      if found.Err? {
        return false;
      }
      dev := Some(LonghornBlockDevice(found.value, NO_DEVICE));
      ok := true;
    }

    /** Attempts until one loads; `o` are the replies by attempt. */
    method WaitAndLoadNVMeDeviceInfoWithoutLock(address: string, port: string, o: nat -> LoadReplies) returns (ok: bool)
      modifies this`info, this`dev, host`scanned, host`detected
      ensures ok <==> info.Some? && WaitLoads(o, address, port, info.value.subsystemNQN)
      ensures info == if old(info).Some? then Some(AfterWait(old(info).value, o, 0, address, port)) else None
      ensures !ok ==> dev == old(dev)
      ensures ok ==> exists k: nat ::
                       && k < MAX_WAIT_DEVICE_RETRIES && Loads(o(k), address, port, info.value.subsystemNQN)
                       && (forall j: nat :: j < k ==> !Loads(o(j), address, port, info.value.subsystemNQN))
                       && dev == Some(LonghornBlockDevice(o(k).detected.value, NO_DEVICE))
      ensures IdentityKept()
      ensures ok ==> LoadedFrom(address, port, info.value.subsystemNQN)
      ensures info.Some? && address != "" && port != "" && info.value.subsystemNQN != "" ==>
                (ok ==> PathIs(address, port)) && (info == old(info) || PathIs(address, port))
    {
      hide Loads, AfterLoad, Shows;
      if info.None? {
        return false;
      }
      for attempt := 0 to MAX_WAIT_DEVICE_RETRIES
        invariant IdentityKept() && info.Some? && dev == old(dev)
        invariant AfterWait(old(info).value, o, 0, address, port) == AfterWait(info.value, o, attempt, address, port)
        invariant forall k: nat :: k < attempt ==> !Loads(o(k), address, port, info.value.subsystemNQN)
        invariant address != "" && port != "" && info.value.subsystemNQN != "" ==> info == old(info) || PathIs(address, port)
      {
        ok := LoadNVMeDeviceInfoWithoutLock(address, port, info.value.subsystemNQN, o(attempt));
        if ok {
          return;
        }
      }
      ok := false;
    }

    /** Whether the recorded path, reloaded, is the requested one and is ready. A path that was
        recorded in full stays recorded, whatever fails. */
    method ReuseExistingNVMeTCPPathWithoutLock(address: string, port: string, o: ProbeReplies) returns (r: Result<bool>)
      requires info.Some?
      modifies this`info, this`dev, host`scanned, host`detected
      ensures r == Ok(true) <==> Reuses(old(info).value, o, address, port)
      ensures r == Ok(false) <==> ProbeLoads(old(info).value, o) && !PathOf(AfterFirst(old(info).value, o), address, port)
      ensures info == Some(AfterProbe(old(info).value, o, address, port))
      ensures IdentityKept()
      ensures r == Ok(true) ==> dev.Some? && dev.value.exported == NO_DEVICE
      ensures r == Ok(true) ==> LoadedFrom(address, port, info.value.subsystemNQN)
      ensures r == Ok(true) && address != "" && port != "" && info.value.subsystemNQN != "" ==> PathIs(address, port)
      ensures r == Ok(false) ==> dev.Some? && !PathIs(address, port)
      ensures !ProbeLoads(old(info).value, o) ==> dev == old(dev)
      ensures old(dev).Some? ==> dev.Some?
      ensures old(PathKnown()) && info.value.subsystemNQN != "" ==> SamePath()
    {
      hide Loads, AfterLoad, Shows;
      var loaded := LoadNVMeDeviceInfoWithoutLock(info.value.transportAddress, info.value.transportServiceID, info.value.subsystemNQN, o.first);
      if !loaded {
        return Err;
      }
      if info.value.transportAddress != address || info.value.transportServiceID != port {
        return Ok(false);
      }
      var ready := WaitAndLoadNVMeDeviceInfoWithoutLock(address, port, o.waits);
      if !ready {
        return Err;
      }
      r := Ok(true);
    }

    // Connecting.

    /** Attempts until one settles the matter; `o` are the replies by attempt. */
    method DiscoverAndConnectNVMeTCPTarget(address: string, port: string, maxRetries: nat, o: nat -> ConnectReplies) returns (c: Connection)
      modifies host`scanned, host`listing, host`listed, host`connects
      ensures c == if info.Some? then ConnectionOf(o, 0, maxRetries, info.value.subsystemNQN, address, port) else Unreached
      ensures c.Reached? && info.Some? && info.value.subsystemNQN != "" ==> c.nqn == info.value.subsystemNQN
      ensures c.Reached? ==> Backed(host, address, port, c.nqn, info.value.nrIoQueues, c.controller)
      ensures host.connects == old(host.connects) ||
                (c.Reached? && host.connects == old(host.connects) + [ConnectCall(c.nqn, address, port, info.value.nrIoQueues, c.controller)])
      ensures c.Reached? && host.connects == old(host.connects) ==>
                FindsFirst(host.scanned, address, port, c.nqn, c.controller) || Listed(host, address, port, c.nqn, c.controller)
      ensures host.connects != old(host.connects) ==> !FindsDevice(host.scanned, address, port, c.nqn)
      ensures c.Crashed? ==> info.Some? && info.value.subsystemNQN == "" && FindsBareDevice(host.scanned, address, port, "")
    {
      hide Answer, FindsDevice, FindsFirst, FindsBareDevice;
      if info.None? {
        return Unreached;
      }
      for attempt := 0 to maxRetries
        invariant host.connects == old(host.connects)
        invariant ConnectionOf(o, 0, maxRetries, info.value.subsystemNQN, address, port) ==
                    ConnectionOf(o, attempt, maxRetries, info.value.subsystemNQN, address, port)
      {
        var nqn := info.value.subsystemNQN;
        if nqn == "" {
          if o(attempt).discovered.Err? {
            continue;
          }
          nqn := o(attempt).discovered.value;
        }
        var reply := ConnectTarget(host, address, port, nqn, info.value.nrIoQueues, o(attempt));
        if reply.Connected? {
          return Reached(nqn, reply.controller);
        } else if reply.Panicked? {
          return Crashed;
        } else if reply.AlreadyConnected? {
          var subsystems := host.ListSubsystems(o(attempt).listing);
          if subsystems.Ok? {
            var route := FindRoute(subsystems.value, nqn, address, port);
            FirstRouteFinds(subsystems.value, nqn, address, port);
            if route.Some? {
              return Reached(nqn, route.value.name);
            }
          }
          return Unreached;
        }
      }
      c := Unreached;
    }

    method RecordConnectedNVMeTCPInfo(nqn: string, controller: string) returns (ok: bool)
      modifies this`info
      ensures ok == (old(info).Some? && controller != "")
      ensures old(info).None? ==> info == None
      ensures old(info).Some? ==> info == Some(old(info).value.(
                subsystemNQN := if nqn != "" then nqn else old(info).value.subsystemNQN,
                controllerName := if controller != "" then controller else old(info).value.controllerName))
    {
      if info.None? {
        return false;
      }
      if nqn != "" {
        info := Some(info.value.(subsystemNQN := nqn));
      }
      if controller == "" {
        return false;
      }
      info := Some(info.value.(controllerName := controller));
      ok := true;
    }

    /** After a connect that got through: success leaves the requested path recorded and its
        device loaded; any failure restores what was recorded and tries to disconnect. What is
        disconnected is a controller of that name, address and port, whether or not this
        connect created it. */
    method LoadConnectedPath(c: Connection, address: string, port: string, waits: nat -> LoadReplies, cleanup: CleanupReplies) returns (ok: bool)
      requires Valid() && info.Some? && address != "" && port != ""
      requires c.Reached? && c.nqn == info.value.subsystemNQN
      modifies this`info, this`dev, host`scanned, host`detected, host`listing, host`listed, host`disconnects
      ensures Valid() && IdentityKept()
      ensures ok <==> c.controller != "" && WaitLoads(waits, address, port, c.nqn)
      ensures host.disconnects == old(host.disconnects) + (if ok then [] else TakenDown(cleanup, c.nqn, address, port))
      ensures ok ==> PathIs(address, port) && dev.Some? && dev.value.exported == NO_DEVICE
      ensures ok ==> LoadedFrom(address, port, info.value.subsystemNQN)
      ensures !ok ==> info == old(info) && dev == old(dev)
      ensures !ok ==> DisconnectTried(host, old(host.disconnects), c.nqn, address, port)
      ensures OnlyDisconnects(old(host.disconnects), host.disconnects, c.nqn, address, port)
    {
      hide Shows, WaitLoads, AfterWait, TakenDown;
      var previousInfo := info;
      ok := RecordConnectedNVMeTCPInfo(c.nqn, c.controller);
      if ok {
        ok := WaitAndLoadNVMeDeviceInfoWithoutLock(address, port, waits);
      }
      if !ok {
        var disconnected := DisconnectController(host, c.nqn, address, port, cleanup);
        info := previousInfo;
      }
    }

    /** What ensuring a path does once the reuse probe has not settled it: connect and load. It
        is all or nothing on the recorded state the probe left, and a failure does not leave a
        connection made here without trying to take it down. */
    method ConnectAndLoadPath(address: string, port: string, o: PathReplies) returns (ok: bool)
      requires Valid() && info.Some? && address != "" && port != ""
      modifies this`info, this`dev, host`scanned, host`detected, host`listing, host`listed, host`connects, host`disconnects
      ensures Valid() && IdentityKept()
      ensures ok <==> Connects(o, info.value.subsystemNQN, address, port)
      ensures ok ==> PathIs(address, port) && dev.Some? && dev.value.exported == NO_DEVICE
      ensures ok ==> LoadedFrom(address, port, info.value.subsystemNQN)
      ensures ok ==> host.disconnects == old(host.disconnects)
      ensures !ok ==> info == old(info) && dev == old(dev)
      ensures OnlyDisconnects(old(host.disconnects), host.disconnects, info.value.subsystemNQN, address, port)
      ensures !ok && host.connects != old(host.connects) ==>
                DisconnectTried(host, old(host.disconnects), info.value.subsystemNQN, address, port)
    {
      hide Shows, WaitLoads, ConnectionOf, TakenDown, Backed, FindsDevice, FindsFirst, FindsBareDevice;
      var c := DiscoverAndConnectNVMeTCPTarget(address, port, MAX_CONNECT_TARGET_RETRIES, o.connects);
      if !c.Reached? {
        return false;
      }
      ok := LoadConnectedPath(c, address, port, o.waits, o.cleanup);
    }

    /** The probe, then connecting. Success records the requested path; a failure leaves a path
        that was recorded in full as it was, and tries to take down a connection made here. */
    method EnsureNVMeTCPPathWithoutLock(address: string, port: string, probe: ProbeReplies, o: PathReplies) returns (ok: bool)
      requires Valid() && info.Some? && address != "" && port != ""
      modifies this`info, this`dev, host`scanned, host`detected, host`listing, host`listed, host`connects, host`disconnects
      ensures Valid() && IdentityKept()
      ensures ok <==> Reuses(old(info).value, probe, address, port) || Connects(o, info.value.subsystemNQN, address, port)
      ensures !ok ==> info == Some(AfterProbe(old(info).value, probe, address, port))
      ensures ok ==> PathIs(address, port) && dev.Some? && dev.value.exported == NO_DEVICE
      ensures ok ==> LoadedFrom(address, port, info.value.subsystemNQN)
      ensures ok ==> host.disconnects == old(host.disconnects)
      ensures !ok && old(PathKnown()) ==> SamePath()
      ensures old(dev).Some? ==> dev.Some?
      ensures OnlyDisconnects(old(host.disconnects), host.disconnects, info.value.subsystemNQN, address, port)
      ensures !ok && host.connects != old(host.connects) ==>
                DisconnectTried(host, old(host.disconnects), info.value.subsystemNQN, address, port)
    {
      hide Shows, Reuses, Connects, AfterProbe, AfterFirst, ProbeLoads;
      var reused := ReuseExistingNVMeTCPPathWithoutLock(address, port, probe);
      if reused == Ok(true) {
        return true;
      }
      ok := ConnectAndLoadPath(address, port, o);
    }

    /** Connects another path without touching the recorded one beyond the probe, and
        disconnects nothing: the requested path is the recorded one, or a connected controller
        backs it. */
    method ConnectNVMeTCPPathWithoutLock(address: string, port: string, probe: ProbeReplies, o: nat -> ConnectReplies) returns (ok: bool)
      requires Valid() && info.Some? && address != "" && port != ""
      modifies this`info, this`dev, host`scanned, host`detected, host`listing, host`listed, host`connects
      ensures Valid() && IdentityKept()
      ensures ok <==>
                || Reuses(old(info).value, probe, address, port)
                || ConnectionOf(o, 0, MAX_CONNECT_TARGET_RETRIES, info.value.subsystemNQN, address, port).Reached?
      ensures info == Some(AfterProbe(old(info).value, probe, address, port))
      ensures ok ==>
                || (PathIs(address, port) && LoadedFrom(address, port, info.value.subsystemNQN))
                || exists controller :: Backed(host, address, port, info.value.subsystemNQN, info.value.nrIoQueues, controller)
      ensures old(PathKnown()) ==> SamePath()
    {
      hide Shows, Reuses, ConnectionOf, AfterProbe, Backed, FindsDevice, FindsFirst, FindsBareDevice;
      var reused := ReuseExistingNVMeTCPPathWithoutLock(address, port, probe);
      if reused == Ok(true) {
        return true;
      }
      var c := DiscoverAndConnectNVMeTCPTarget(address, port, MAX_CONNECT_TARGET_RETRIES, o);
      ok := c.Reached?;
    }

    // The endpoint and the device-mapper device.

    /** A block node with the numbers of the exported device stands at the endpoint. */
    predicate EndpointServesExport()
      reads this, host`endpoint
    {
      dev.Some? && host.endpoint == Some(Node(true, dev.value.exported.major, dev.value.exported.minor))
    }

    /** The exported device is the device-mapper device, whatever that maps. */
    predicate ExportsDm()
      reads this, host`dm
    {
      dev.Some? && host.dm.Some? && dev.value.exported == BlockDevice(name, host.dm.value.major, host.dm.value.minor)
    }

    /** The exported device is the device-mapper device, running and mapped onto the source. */
    predicate DmServesSource()
      reads this, host`dm
    {
      && ExportsDm()
      && host.dm.value.live == dev.value.source.name
      && host.dm.value.inactive == None
      && !host.dm.value.suspended
    }

    method IsNamespaceExist(devices: seq<string>) returns (found: bool)
      ensures found <==> info.Some? && info.value.namespaceName in devices
    {
      if info.None? {
        return false;
      }
      for n := 0 to |devices|
        invariant info.value.namespaceName !in devices[..n]
      {
        if devices[n] == info.value.namespaceName {
          return true;
        }
      }
      assert devices[..|devices|] == devices;
      found := false;
    }

    /** The dependencies read last are those of the exported device, and the recorded namespace,
        if any, is among them. */
    ghost predicate DependsOnNamespace()
      reads this, host`deps
    {
      && info.Some? && dev.Some? && host.deps.device == dev.value.exported.name
      && (info.value.namespaceName == "" || info.value.namespaceName in host.deps.names)
    }

    method LoadEndpointForNvmeTcpFrontend(dmDeviceIsBusy: bool, o: EndpointReplies) returns (ok: bool)
      modifies this`dev, this`isUp, host`deps
      ensures old(Valid()) ==> Valid()
      ensures ok <==> info.Some? && EndpointLoads(o, host.endpoint, info.value.namespaceName, dmDeviceIsBusy)
      ensures !ok ==> dev == old(dev) && isUp == old(isUp)
      ensures ok ==> isUp && EndpointServesExport() && dev.value.exported.name == o.detected.value
      ensures ok && !dmDeviceIsBusy ==> DependsOnNamespace()
      ensures ok ==>
                dev.value.source == if old(dev).Some? && old(dev).value.source.name != "" then old(dev).value.source else NO_DEVICE
    {
      if info.None? {
        return false;
      }
      var found := host.DetectEndpoint(o.detected);
      if found.Err? {
        return false;
      }
      var depDevices := host.DmsetupDeps(found.value.name, o.deps);
      if depDevices.Err? {
        return false;
      }
      if !dmDeviceIsBusy {
        var present := IsNamespaceExist(depDevices.value);
        if info.value.namespaceName != "" && !present {
          return false;
        }
      }
      var newDev := LonghornBlockDevice(NO_DEVICE, found.value);
      if dev.Some? && dev.value.source.name != "" {
        newDev := newDev.(source := dev.value.source);
      }
      dev := Some(newDev);
      isUp := true;
      ok := true;
    }

    method MakeEndpoint(works: bool) returns (ok: bool)
      modifies this`isUp, host`endpoint
      ensures ok == (dev.Some? && endpoint != "" && works && old(host.endpoint).None?)
      ensures ok ==> isUp && EndpointServesExport()
      ensures !ok ==> isUp == old(isUp)
    {
      if dev.None? {
        return false;
      }
      if endpoint == "" {
        return false;
      }
      ok := host.DuplicateDevice(dev.value.exported.major, dev.value.exported.minor, works);
      if ok {
        isUp := true;
      }
    }

    /** Reuses a node that already serves the exported device, replaces any other one. */
    method CreateEndpoint(o: NodeOutcomes) returns (ok: bool)
      modifies this`isUp, host`endpoint
      ensures old(Valid()) ==> Valid()
      ensures dev.Some? ==> (ok <==> NodeCreatable(o, old(host.endpoint), dev.value.exported, endpoint))
      ensures dev.None? ==> (ok <==> o.stat && old(host.endpoint).Some?) && isUp == old(isUp)
      ensures ok && dev.Some? ==> isUp && EndpointServesExport()
    {
      var node := host.StatEndpoint(o.stat);
      if node.Err? {
        return false;
      }
      if node.value.Some? {
        if dev.None? {
          return true;
        }
        var again := host.StatEndpoint(o.recheck);
        if again.Ok? && again.value.Some? && again.value.value.isBlock &&
           again.value.value.major == dev.value.exported.major && again.value.value.minor == dev.value.exported.minor {
          isUp := true;
          return true;
        }
        var removed := host.RemoveEndpoint(o.remove);
        if !removed {
          return false;
        }
      }
      ok := MakeEndpoint(o.make);
    }

    method RemoveEndpoint(works: bool) returns (ok: bool)
      modifies this`dev, this`isUp, host`endpoint
      ensures old(Valid()) ==> Valid()
      ensures ok == (endpoint == "" || works)
      ensures !ok || endpoint == "" ==> dev == old(dev) && isUp == old(isUp)
      ensures endpoint == "" ==> host.endpoint == old(host.endpoint)
      ensures ok && endpoint != "" ==> dev == None && !isUp && host.endpoint == None
    {
      if endpoint == "" {
        return true;
      }
      ok := host.RemoveEndpoint(works);
      if ok {
        dev := None;
        isUp := false;
      }
    }

    method ValidateDiskCreation(maxRetries: nat, ready: nat -> bool) returns (ok: bool)
      ensures ok <==> exists k: nat :: k < maxRetries && ready(k)
    {
      for attempt := 0 to maxRetries
        invariant forall k: nat :: k < attempt ==> !ready(k)
      {
        if ready(attempt) {
          return true;
        }
      }
      ok := false;
    }

    method CreateLinearDmDevice(o: CreateReplies) returns (ok: bool)
      modifies this`dev, host`dm, host`dmCommands
      ensures ok <==> dev.Some? && old(host.dm).None? && Creates(o)
      ensures ok ==> host.dmCommands == old(host.dmCommands) + [DmCreated(dev.value.source.name)]
      ensures ok ==> DmServesSource() && (host.dm.value.major, host.dm.value.minor) == o.create.value
      ensures dev.Some? == old(dev).Some? && (dev.Some? ==> dev.value.source == old(dev).value.source)
      ensures !ok ==> dev == old(dev)
    {
      if dev.None? {
        return false;
      }
      if !o.sectors {
        return false;
      }
      var created := host.DmCreate(dev.value.source.name, o.create);
      if !created {
        return false;
      }
      var valid := ValidateDiskCreation(MAX_VALIDATION_RETRIES, o.ready);
      if !valid {
        return false;
      }
      var numbers := host.DmNumbers(o.numbers);
      if numbers.Err? {
        return false;
      }
      dev := Some(dev.value.(exported := BlockDevice(name, numbers.value.0, numbers.value.1)));
      ok := true;
    }

    /** Loads a table onto the source; it is not live before a resume. */
    method ReloadLinearDmDevice(o: DmOutcomes) returns (ok: bool)
      requires dev.Some?
      modifies this`dev, host`dm, host`dmCommands
      ensures dev.Some? && dev.value.source == old(dev).value.source
      ensures ok == (old(host.dm).Some? && o.sectors && o.reload && o.numbers)
      ensures ok ==> host.dm == Some(old(host.dm).value.(inactive := Some(dev.value.source.name)))
      ensures ok ==> host.dmCommands == old(host.dmCommands) + [DmReloaded(dev.value.source.name)]
      ensures ok ==> ExportsDm()
      ensures !ok ==> dev == old(dev)
    {
      if !o.sectors {
        return false;
      }
      var reloaded := host.DmReload(dev.value.source.name, o.reload);
      if !reloaded {
        return false;
      }
      var numbers := host.DmNumbers(o.numbers);
      if numbers.Err? {
        return false;
      }
      dev := Some(dev.value.(exported := BlockDevice(name, numbers.value.0, numbers.value.1)));
      ok := true;
    }

    /** Suspend, reload, resume: the live table ends on the current source. A failure has
        exported the device-mapper device exactly if it got as far as reading its numbers, and
        left the export alone otherwise. */
    method ReplaceDmDeviceTarget(o: DmOutcomes) returns (ok: bool)
      requires dev.Some?
      modifies this`dev, host`dm, host`dmCommands
      ensures dev.Some? && dev.value.source == old(dev).value.source
      ensures ok == Replaces(o, old(host.dm))
      ensures ok ==> host.dmCommands == old(host.dmCommands) + (if old(host.dm).value.suspended then [] else [DmSuspended])
                                      + [DmReloaded(dev.value.source.name), DmResumed]
      ensures ok ==> DmServesSource()
      ensures if Renumbers(o, old(host.dm)) then ExportsDm() else dev == old(dev)
    {
      var deferredRemove := host.DmInfo(o.flags);
      if deferredRemove.Err? {
        return false;
      }
      var state := host.DmInfo(o.state);
      if state.Err? {
        return false;
      }
      if !state.value.suspended {
        var suspended := host.DmSuspend(o.suspend);
        if !suspended {
          return false;
        }
      }
      ok := ReloadLinearDmDevice(o);
      if !ok {
        return false;
      }
      ok := host.DmResume(o.resume);
    }

    // Stopping and starting.

    /** Everything that stopping may touch beyond the record is as it was. */
    twostate predicate NothingStopped()
      reads this, host`endpoint, host`dm, host`disconnects
    {
      && info == old(info) && dev == old(dev) && isUp == old(isUp)
      && host.endpoint == old(host.endpoint) && host.dm == old(host.dm) && host.disconnects == old(host.disconnects)
    }

    /** No node and no device are left, unless there is no endpoint to begin with. */
    predicate EndpointGone()
      reads this, host`endpoint
    {
      endpoint != "" ==> dev == None && !isUp && host.endpoint == None
    }

    /** The subsystem was disconnected, once and last. */
    twostate predicate SubsystemDisconnected()
      reads this, host`disconnects
    {
      info.Some? && host.disconnects == old(host.disconnects) + [BySubsystem(info.value.subsystemNQN)]
    }

    /** The outcomes of a stop. */
    twostate predicate StopOutcome(cleanup: bool, deferred: bool, failIfBusy: bool, busy: bool, ok: bool)
      reads this, host`endpoint, host`dm, host`disconnects
    {
      && (!cleanup ==> !busy && dev == old(dev) && isUp == old(isUp) && host.dm == old(host.dm) && host.endpoint == old(host.endpoint))
      && (busy ==> host.dm == old(host.dm))
      && (busy && failIfBusy ==> !ok && NothingStopped())
      && (ok && cleanup && !busy && !deferred ==> host.dm == None)
      && (ok && cleanup ==> EndpointGone())
      && (ok && info.Some? ==> SubsystemDisconnected())
      && (ok && info.Some? ==> PathIs("", "") && info.value.controllerName == "" && info.value.namespaceName == "")
      && (!ok ==> info == old(info))
      && (host.disconnects == old(host.disconnects) || (SubsystemDisconnected() && (cleanup ==> EndpointGone())))
    }

    /** Removes the device-mapper device and the endpoint. A missing device is no error, and one
        in use only on request. */
    method CleanUp(deferDmDeviceCleanup: bool, returnErrorForBusyDevice: bool, o: StopReplies) returns (dmDeviceIsBusy: bool, ok: bool)
      modifies this`dev, this`isUp, host`endpoint, host`dm
      ensures old(Valid()) ==> Valid()
      ensures ok <==> CleansUp(o, old(host.dm), endpoint, returnErrorForBusyDevice)
      ensures dmDeviceIsBusy <==> StaysBusy(o, old(host.dm), endpoint, returnErrorForBusyDevice)
      ensures dmDeviceIsBusy ==> host.dm == old(host.dm)
      ensures dmDeviceIsBusy && returnErrorForBusyDevice ==> dev == old(dev) && isUp == old(isUp) && host.endpoint == old(host.endpoint)
      ensures ok && !dmDeviceIsBusy && !deferDmDeviceCleanup ==> host.dm == None
      ensures ok ==> EndpointGone()
      ensures endpoint == "" ==> dev == old(dev) && isUp == old(isUp) && host.endpoint == old(host.endpoint)
    {
      dmDeviceIsBusy := false;
      var removal := host.DmRemove(deferDmDeviceCleanup, o.removal);
      if removal.Busy? {
        if returnErrorForBusyDevice {
          return true, false;
        }
        dmDeviceIsBusy := true;
      } else if removal.RemovalFailed? {
        return false, false;
      }
      ok := RemoveEndpoint(o.node);
      if !ok {
        return false, false;
      }
    }

    method StopWithoutLock(spdkClient: bool, cleanup: bool, deferDmDeviceCleanup: bool, returnErrorForBusyDevice: bool, o: StopReplies)
      returns (dmDeviceIsBusy: bool, ok: bool)
      modifies this`info, this`dev, this`isUp, host`endpoint, host`dm, host`disconnects
      ensures old(Valid()) ==> Valid()
      ensures IdentityKept()
      ensures ok <==>
                && (cleanup ==> CleansUp(o, old(host.dm), endpoint, returnErrorForBusyDevice))
                && (if info.Some? then o.disconnect else spdkClient && ublkInfo.Some? && o.ublk)
      ensures dmDeviceIsBusy <==> cleanup && StaysBusy(o, old(host.dm), endpoint, returnErrorForBusyDevice)
      ensures info == if ok && old(info).Some? then Some(Forgotten(old(info).value)) else old(info)
      ensures cleanup && endpoint == "" ==> dev == old(dev) && isUp == old(isUp) && host.endpoint == old(host.endpoint)
      ensures StopOutcome(cleanup, deferDmDeviceCleanup, returnErrorForBusyDevice, dmDeviceIsBusy, ok)
    {
      dmDeviceIsBusy := false;
      if cleanup {
        if returnErrorForBusyDevice { BusyIsAnError(o, host.dm, endpoint); }
        dmDeviceIsBusy, ok := CleanUp(deferDmDeviceCleanup, returnErrorForBusyDevice, o);
        if !ok {
          return dmDeviceIsBusy, false;
        }
      }
      hide CleansUp, StaysBusy;
      if info.Some? {
        ok := host.DisconnectSubsystem(info.value.subsystemNQN, o.disconnect);
        if !ok {
          return dmDeviceIsBusy, false;
        }
        info := Some(info.value.(controllerName := "", namespaceName := "", transportAddress := "", transportServiceID := ""));
        return dmDeviceIsBusy, true;
      }
      if !spdkClient || ublkInfo.None? {
        return dmDeviceIsBusy, false;
      }
      ok := o.ublk;
    }

    method Lock(works: bool) returns (ok: bool)
      ensures ok == Locks(hostProc, works)
    {
      ok := true;
      if hostProc != "" {
        ok := hostProc == HOST_PROC && works;
      }
    }

    /** The last part of a start, once a path is loaded: the device-mapper device is created, or
        its target replaced where it stayed busy, and the endpoint made. A replacement that fails
        does not fail the start. */
    method Publish(cleanup: bool, wasBusy: bool, o: LaunchReplies) returns (dmDeviceIsBusy: bool, ok: bool)
      requires Valid() && dev.Some? && dev.value.exported == NO_DEVICE
      modifies this`dev, this`isUp, host`dm, host`dmCommands, host`endpoint
      ensures Valid() && dev.Some? && dev.value.source == old(dev).value.source
      ensures ok <==>
                && (cleanup && !wasBusy ==> old(host.dm).None? && Creates(o.create))
                && NodeCreatable(o.node, old(host.endpoint), dev.value.exported, endpoint)
      ensures ok ==> isUp && EndpointServesExport()
      ensures cleanup && wasBusy ==> (dmDeviceIsBusy <==> !Replaces(o.dm, old(host.dm)))
      ensures cleanup && wasBusy ==> if Renumbers(o.dm, old(host.dm)) then ExportsDm() else dev == old(dev)
      ensures cleanup && !wasBusy ==> !dmDeviceIsBusy
      ensures cleanup && (if wasBusy then Replaces(o.dm, old(host.dm)) else old(host.dm).None? && Creates(o.create)) ==> DmServesSource()
      ensures !cleanup ==> dev.value.exported == dev.value.source && dmDeviceIsBusy == wasBusy
    {
      hide Renumbers, Replaces, Creates;
      dmDeviceIsBusy := wasBusy;
      if cleanup {
        if dmDeviceIsBusy {
          var replaced := ReplaceDmDeviceTarget(o.dm);
          if replaced {
            dmDeviceIsBusy := false;
          }
        } else {
          var created := CreateLinearDmDevice(o.create);
          if !created {
            return false, false;
          }
        }
      } else {
        dev := Some(dev.value.(exported := dev.value.source));
      }
      ok := CreateEndpoint(o.node);
    }

    /** How a relaunch leaves things: the subsystem was disconnected exactly when asked to stop
        first, and the exported device is the running device-mapper device on the current source,
        or the source itself when device-mapper is skipped. Busy is reported exactly if the
        device-mapper device was not stopped or stayed in use, and replacing its target did not
        work; the export is then the device-mapper device, if its numbers were read, and no device
        at all otherwise. */
    twostate predicate Relaunched(cleanup: bool, stop: bool, o: StartReplies, busy: bool)
      reads this, host`dm, host`disconnects
    {
      && info.Some? && dev.Some?
      && host.disconnects == old(host.disconnects) + (if stop then [BySubsystem(info.value.subsystemNQN)] else [])
      && (cleanup && !busy ==> DmServesSource())
      && (cleanup ==> (busy <==> (stop ==> StaysBusy(o.stop, old(host.dm), endpoint, false)) && !Replaces(o.launch.dm, old(host.dm))))
      && (cleanup && busy ==> if Renumbers(o.launch.dm, old(host.dm)) then ExportsDm() else dev.value.exported == NO_DEVICE)
      && (!cleanup ==> dev.value.exported == dev.value.source && busy == !stop)
    }

    /** Stops if asked to, connects, and builds the device and the endpoint. */
    method Relaunch(address: string, port: string, cleanup: bool, stop: bool, o: StartReplies)
      returns (dmDeviceIsBusy: bool, ok: bool)
      requires Valid() && info.Some? && address != "" && port != ""
      modifies this`info, this`dev, this`isUp, host
      ensures Valid() && IdentityKept()
      ensures ok <==>
                && Relaunches(o, old(info).value, old(host.dm), endpoint, address, port, cleanup, stop)
                && dev.Some?
                && NodeCreatable(o.launch.node, NodeLeft(old(host.endpoint), endpoint, cleanup, stop), dev.value.exported, endpoint)
      ensures Relaunches(o, old(info).value, old(host.dm), endpoint, address, port, cleanup, stop) ==>
                && PathIs(address, port) && LoadedFrom(address, port, info.value.subsystemNQN)
                && Relaunched(cleanup, stop, o, dmDeviceIsBusy)
      ensures ok ==> isUp && EndpointServesExport()
    {
      hide Shows, Reuses, Connects, Creates, Renumbers, Replaces, AfterProbe, NodeCreatable, OnlyDisconnects, DisconnectTried;
      if stop {
        dmDeviceIsBusy, ok := StopWithoutLock(false, cleanup, false, false, o.stop);
        if !ok {
          return dmDeviceIsBusy, false;
        }
      } else {
        dmDeviceIsBusy := true;
      }
      ok := EnsureNVMeTCPPathWithoutLock(address, port, o.probe, o.path);
      if !ok {
        return dmDeviceIsBusy, false;
      }
      dmDeviceIsBusy, ok := Publish(cleanup, dmDeviceIsBusy, o.launch);
    }

    /** The host's device, endpoint and connections are as they were. */
    twostate predicate HostUntouched()
      reads this, host`endpoint, host`dm, host`disconnects, host`connects
    {
      && host.endpoint == old(host.endpoint) && host.dm == old(host.dm)
      && host.disconnects == old(host.disconnects) && host.connects == old(host.connects)
    }

    /** Starts the initiator. On success, whichever path was taken, a block node at the endpoint
        has the numbers of the exported device, the initiator is up and the recorded address is
        the requested one. Either it was relaunched, or it was found already up: then the host is
        untouched, the exported device depends on the recorded namespace, and no other path had
        been recorded before. The record and the source are of the device that discovery found for
        this request, in both cases. */
    method StartNvmeTCPInitiator(address: string, port: string, cleanup: bool, stop: bool, o: StartReplies)
      returns (dmDeviceIsBusy: bool, ok: bool)
      requires Valid()
      modifies this`info, this`dev, this`isUp, host
      ensures Valid() && IdentityKept()
      ensures ok <==>
                && info.Some? && address != "" && port != "" && Locks(hostProc, o.lock)
                && (FoundUp(old(info).value, old(host.endpoint), address, port, o) ||
                    (&& Relaunches(o, AfterProbe(old(info).value, o.early, address, port), old(host.dm), endpoint, address, port, cleanup, stop)
                     && dev.Some?
                     && NodeCreatable(o.launch.node, NodeLeft(old(host.endpoint), endpoint, cleanup, stop), dev.value.exported, endpoint)))
      ensures ok ==> address != "" && port != "" && PathIs(address, port) && isUp && EndpointServesExport()
      ensures ok ==> LoadedFrom(address, port, info.value.subsystemNQN)
      ensures ok ==>
                if FoundUp(old(info).value, old(host.endpoint), address, port, o)
                then HostUntouched() && !dmDeviceIsBusy && DependsOnNamespace() && old(PathKnown() ==> PathIs(address, port))
                else Relaunched(cleanup, stop, o, dmDeviceIsBusy)
      ensures && info.Some? && address != "" && port != "" && Locks(hostProc, o.lock)
              && !FoundUp(old(info).value, old(host.endpoint), address, port, o)
              && Relaunches(o, AfterProbe(old(info).value, o.early, address, port), old(host.dm), endpoint, address, port, cleanup, stop) ==>
                Relaunched(cleanup, stop, o, dmDeviceIsBusy)
    {
      hide Shows, Reuses, EndpointLoads, Relaunches, AfterProbe, NodeCreatable, Replaces, Renumbers;
      if info.None? {
        return false, false;
      }
      if address == "" || port == "" {
        return false, false;
      }
      var locked := Lock(o.lock);
      if !locked {
        return false, false;
      }
      var launched := ReuseExistingNVMeTCPPathWithoutLock(address, port, o.early);
      if launched == Ok(true) {
        ShownIsNamed(host.scanned, host.detected, info.value, dev.value.source, address, port, info.value.subsystemNQN);
        var loaded := LoadEndpointForNvmeTcpFrontend(false, o.endpoint);
        if loaded {
          return false, true;
        }
      }
      dmDeviceIsBusy, ok := Relaunch(address, port, cleanup, stop, o);
    }

    method Stop(spdkClient: bool, cleanup: bool, deferDmDeviceCleanup: bool, returnErrorForBusyDevice: bool, lock: bool, o: StopReplies)
      returns (dmDeviceIsBusy: bool, ok: bool)
      requires Valid()
      modifies this`info, this`dev, this`isUp, host`endpoint, host`dm, host`disconnects
      ensures Valid() && IdentityKept()
      ensures ok <==>
                && Locks(hostProc, lock)
                && (cleanup ==> CleansUp(o, old(host.dm), endpoint, returnErrorForBusyDevice))
                && (if info.Some? then o.disconnect else spdkClient && ublkInfo.Some? && o.ublk)
      ensures dmDeviceIsBusy <==> Locks(hostProc, lock) && cleanup && StaysBusy(o, old(host.dm), endpoint, returnErrorForBusyDevice)
      ensures StopOutcome(cleanup, deferDmDeviceCleanup, returnErrorForBusyDevice, dmDeviceIsBusy, ok)
    {
      var locked := Lock(lock);
      if !locked {
        return false, false;
      }
      dmDeviceIsBusy, ok := StopWithoutLock(spdkClient, cleanup, deferDmDeviceCleanup, returnErrorForBusyDevice, o);
    }

    method ConnectNVMeTCPPath(address: string, port: string, lock: bool, probe: ProbeReplies, o: nat -> ConnectReplies) returns (ok: bool)
      requires Valid()
      modifies this`info, this`dev, host`scanned, host`detected, host`listing, host`listed, host`connects
      ensures Valid() && IdentityKept()
      ensures ok <==>
                && info.Some? && address != "" && port != "" && Locks(hostProc, lock)
                && (Reuses(old(info).value, probe, address, port) ||
                    ConnectionOf(o, 0, MAX_CONNECT_TARGET_RETRIES, info.value.subsystemNQN, address, port).Reached?)
      ensures ok ==>
                || (PathIs(address, port) && LoadedFrom(address, port, info.value.subsystemNQN))
                || exists controller :: Backed(host, address, port, info.value.subsystemNQN, info.value.nrIoQueues, controller)
      ensures old(PathKnown()) ==> SamePath()
    {
      hide Shows, Reuses, ConnectionOf, AfterProbe, Backed;
      if info.None? || address == "" || port == "" {
        return false;
      }
      var locked := Lock(lock);
      if !locked {
        return false;
      }
      ok := ConnectNVMeTCPPathWithoutLock(address, port, probe, o);
    }

    method ReconnectNVMeTCPPath(address: string, port: string, lock: bool, probe: ProbeReplies, o: PathReplies) returns (ok: bool)
      requires Valid()
      modifies this`info, this`dev, host`scanned, host`detected, host`listing, host`listed, host`connects, host`disconnects
      ensures Valid() && IdentityKept()
      ensures ok <==>
                && info.Some? && address != "" && port != "" && Locks(hostProc, lock)
                && (Reuses(old(info).value, probe, address, port) || Connects(o, info.value.subsystemNQN, address, port))
      ensures ok ==> PathIs(address, port) && dev.Some? && dev.value.exported == NO_DEVICE
      ensures ok ==> LoadedFrom(address, port, info.value.subsystemNQN)
      ensures ok ==> host.disconnects == old(host.disconnects)
      ensures !ok && old(PathKnown()) ==> SamePath()
      ensures info.Some? ==> OnlyDisconnects(old(host.disconnects), host.disconnects, info.value.subsystemNQN, address, port)
      ensures info.Some? && !ok && host.connects != old(host.connects) ==>
                DisconnectTried(host, old(host.disconnects), info.value.subsystemNQN, address, port)
    {
      hide Shows, Reuses, Connects, AfterProbe;
      if info.None? || address == "" || port == "" {
        return false;
      }
      var locked := Lock(lock);
      if !locked {
        return false;
      }
      ok := EnsureNVMeTCPPathWithoutLock(address, port, probe, o);
    }

    method LoadNVMeDeviceInfo(address: string, port: string, nqn: string, lock: bool, o: LoadReplies) returns (ok: bool)
      requires Valid()
      modifies this`info, this`dev, host`scanned, host`detected
      ensures Valid() && IdentityKept()
      ensures ok <==> info.Some? && Locks(hostProc, lock) && Loads(o, address, port, nqn)
      ensures dev == if ok then Some(LonghornBlockDevice(o.detected.value, NO_DEVICE)) else old(dev)
      ensures ok ==> LoadedFrom(address, port, nqn)
      ensures address != "" && port != "" && nqn != "" ==>
                (ok ==> PathIs(address, port)) && (info == old(info) || PathIs(address, port))
    {
      hide Shows, Loads, AfterLoad;
      var locked := Lock(lock);
      if !locked {
        return false;
      }
      ok := LoadNVMeDeviceInfoWithoutLock(address, port, nqn, o);
    }
  }

  /** The last part of a start that succeeds with an endpoint for no device: the device-mapper
      device is busy and its first query fails, while every other command works. */
  method PublishesNoDevice() returns (i: Initiator, busy: bool, ok: bool)
    ensures fresh(i) && i.Valid() && ok && busy && i.isUp
    ensures i.dev.Some? && i.dev.value.exported == NO_DEVICE && i.dev.value.source == BlockDevice("nvme2n1", 259, 1)
    ensures i.host.endpoint == Some(Node(true, 0, 0))
  {
    var host := new Host();
    host.dm := Some(DmDevice(253, 0, "nvme1n1", None, false));
    host.endpoint := None;
    i := new Initiator("vol", LonghornDevicePath("vol"), "", host, Some(NVMeTCPInfo("nqn", "", "10.0.0.1", "20001", "nvme2", "nvme2n1", 0)), None);
    i.dev := Some(LonghornBlockDevice(BlockDevice("nvme2n1", 259, 1), NO_DEVICE));
    var o := LaunchReplies(DmOutcomes(false, true, true, true, true, true, true),
                           CreateReplies(true, Some((253, 0)), k => true, true),
                           NodeOutcomes(true, true, true, true));
    busy, ok := i.Publish(true, true, o);
  }

  // Runs.

  datatype Operation =
    | Start(address: string, port: string, cleanup: bool, stop: bool, start: StartReplies)
    | Stop(spdkClient: bool, cleanup: bool, deferred: bool, failIfBusy: bool, lock: bool, stopping: StopReplies)
    | Connect(address: string, port: string, lock: bool, probe: ProbeReplies, connects: nat -> ConnectReplies)
    | Reconnect(address: string, port: string, lock: bool, probe: ProbeReplies, path: PathReplies)
    | LoadDevice(address: string, port: string, nqn: string, lock: bool, load: LoadReplies)
    | LoadEndpoint(dmDeviceIsBusy: bool, replies: EndpointReplies)

  /** Over any run of operations, failing ones included, the subsystem name stays what it was
      given at creation, so it never becomes empty, and an initiator that is up has a device. */
  method Perform(i: Initiator, operations: seq<Operation>)
    requires i.Valid()
    modifies i`info, i`dev, i`isUp, i.host
    ensures i.Valid() && i.IdentityKept()
  {
    hide Reuses, ConnectionOf, Connects, Relaunches, FoundUp, Loads, AfterProbe, NodeCreatable, EndpointLoads, Backed;
    for n := 0 to |operations|
      invariant i.Valid() && i.IdentityKept()
    {
      match operations[n] {
        case Start(address, port, cleanup, stop, o) =>
          var busy, ok := i.StartNvmeTCPInitiator(address, port, cleanup, stop, o);
        case Stop(spdkClient, cleanup, deferred, failIfBusy, lock, o) =>
          var busy, ok := i.Stop(spdkClient, cleanup, deferred, failIfBusy, lock, o);
        case Connect(address, port, lock, probe, o) =>
          var ok := i.ConnectNVMeTCPPath(address, port, lock, probe, o);
        case Reconnect(address, port, lock, probe, o) =>
          var ok := i.ReconnectNVMeTCPPath(address, port, lock, probe, o);
        case LoadDevice(address, port, nqn, lock, o) =>
          var ok := i.LoadNVMeDeviceInfo(address, port, nqn, lock, o);
        case LoadEndpoint(dmDeviceIsBusy, o) =>
          var ok := i.LoadEndpointForNvmeTcpFrontend(dmDeviceIsBusy, o);
      }
    }
  }

  /** The first start of a volume works: there is no device-mapper device and no endpoint yet, no
      device is found, the stop asked for finds nothing to remove, the connect command gets
      through and the device appears. */
  method FirstStart(ip: string, port: string, nqn: string, p: Path, row: CliDevice) returns (i: Initiator, busy: bool, ok: bool)
    requires ip != "" && port != "" && nqn != "" && NvmeAddress.ParseAddress(p.address) == (ip, port)
    ensures fresh(i) && ok && !busy && i.isUp && i.PathIs(ip, port)
    ensures i.EndpointServesExport() && i.DmServesSource()
  {
    var host := new Host();
    host.dm, host.endpoint := None, None;
    i := new Initiator("vol", LonghornDevicePath("vol"), "", host, Some(NVMeTCPInfo(nqn, "", "", "", "", "", 0)), None);
    var none := Scan(Err, map[], Err);
    var absent := ProbeReplies(LoadReplies(none, Err), k => LoadReplies(none, Err));
    var sys := Subsystem("", nqn, [p]);
    var appears := LoadReplies(OneRow(sys, row, Err), Ok(BlockDevice("nvme0n1", 259, 1)));
    var path := PathReplies(k => ConnectReplies(Err, none, true, true, Connected("nvme0"), Err), k => appears, CleanupReplies(Err, true));
    var launch := LaunchReplies(DmOutcomes(true, true, true, true, true, true, true),
                                CreateReplies(true, Some((253, 0)), k => true, true),
                                NodeOutcomes(true, true, true, true));
    var o := StartReplies(true, absent, EndpointReplies(None, Err), StopReplies(Removable, true, true, true), absent, path, launch);
    assert AddressMatches(sys.paths[0].address, ip, port);
    OneRowFound(sys, row, Err, ip, port, nqn);
    hide NvmeAddress.ParseAddress, Routed;
    assert Loads(appears, ip, port, nqn);
    assert path.waits(0) == appears && launch.create.ready(0);
    assert Devices(none, ip, port, nqn) == Err;
    assert Connects(path, nqn, ip, port);
    assert Creates(launch.create);
    hide Devices, Connects, Creates, Loads;
    busy, ok := i.StartNvmeTCPInitiator(ip, port, true, true, o);
  }
}
