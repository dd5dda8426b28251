/** The host as the initiator sees it through commands. What a command replies is a parameter,
    so that contracts can say exactly which replies make an operation succeed; any reply is
    possible. The device-mapper device and the endpoint node are state that only the initiator's
    own commands change, because it holds the volume's lock; an update that fails leaves what it
    was updating in an unknown state. */
module HostKernel {
  import opened NvmeDevices
  import opened Wrappers

  datatype BlockDevice = BlockDevice(name: string, major: int, minor: int)

  /** A file-system node at the endpoint path. */
  datatype Node = Node(isBlock: bool, major: int, minor: int)

  /** A linear device-mapper device: the source its live table maps, and a table loaded but
      not yet resumed. */
  datatype DmDevice = DmDevice(major: int, minor: int, live: string, inactive: Option<string>, suspended: bool)

  datatype ConnectReply = Connected(controller: string) | AlreadyConnected | Refused | Panicked

  datatype DmRemoval = Removed | NoDevice | Busy | RemovalFailed

  /** A disconnect command: of a whole subsystem, or of one controller, with the subsystem
      listing the host had reported last. */
  datatype Disconnect = BySubsystem(nqn: string) | ByController(name: string, listing: seq<Subsystem>)

  /** A connect command that succeeded, and the controller it reported. */
  datatype ConnectCall = ConnectCall(nqn: string, ip: string, port: string, nrIoQueues: int, controller: string)

  /** Whether removing the device-mapper device would work, were it there. */
  datatype RemovalReply = Removable | InUse | Unremovable

  /** A block device found at a path. */
  datatype Detection = Detection(path: string, device: BlockDevice)

  /** The dependencies reported for a device. */
  datatype Dependencies = Dependencies(device: string, names: seq<string>)

  /** A device-mapper command that changes something, and worked. */
  datatype DmCommand = DmCreated(source: string) | DmSuspended | DmReloaded(source: string) | DmResumed

  class Host {
    var endpoint: Option<Node>
    var dm: Option<DmDevice>
    ghost var listing: seq<Subsystem>
    ghost var listed: bool
    ghost var disconnects: seq<Disconnect>
    ghost var connects: seq<ConnectCall>
    ghost var scanned: Scan
    ghost var dmCommands: seq<DmCommand>
    ghost var deps: Dependencies
    ghost var detected: Detection

    constructor ()
    {
    }

    // Scans, detections, dependency and subsystem listings, connects and disconnects: what they
    // printed last, or did, is kept as history.

    method NvmeScan(scan: Scan)
      modifies this`scanned
      ensures scanned == scan
    {
      scanned := scan;
    }

    /** `lsblk` on a path; it never reports an empty name. */
    method DetectDevice(path: string, reply: Result<BlockDevice>) returns (r: Result<BlockDevice>)
      modifies this`detected
      ensures r == Named(reply)
      ensures r.Ok? ==> detected == Detection(path, r.value)
    {
      r := Named(reply);
      if r.Ok? {
        detected := Detection(path, r.value);
      }
    }

    method DmsetupDeps(device: string, reply: Result<seq<string>>) returns (r: Result<seq<string>>)
      modifies this`deps
      ensures r == reply
      ensures r.Ok? ==> deps == Dependencies(device, r.value)
    {
      r := reply;
      if r.Ok? {
        deps := Dependencies(device, r.value);
      }
    }

    method Connect(nqn: string, ip: string, port: string, nrIoQueues: int, reply: ConnectReply) returns (r: ConnectReply)
      modifies this`connects
      ensures r == if reply.Panicked? then Refused else reply
      ensures connects == old(connects) + (if r.Connected? then [ConnectCall(nqn, ip, port, nrIoQueues, r.controller)] else [])
    {
      r := if reply.Panicked? then Refused else reply;
      if r.Connected? {
        connects := connects + [ConnectCall(nqn, ip, port, nrIoQueues, r.controller)];
      }
    }

    method ListSubsystems(reply: Result<seq<Subsystem>>) returns (r: Result<seq<Subsystem>>)
      modifies this`listing, this`listed
      ensures r == reply && listed == r.Ok?
      ensures r.Ok? ==> listing == r.value
    {
      r := reply;
      listed := r.Ok?;
      if r.Ok? {
        listing := r.value;
      }
    }

    method DisconnectController(name: string, works: bool) returns (ok: bool)
      modifies this`disconnects
      ensures ok == works
      ensures disconnects == old(disconnects) + [ByController(name, listing)]
    {
      disconnects := disconnects + [ByController(name, listing)];
      ok := works;
    }

    method DisconnectSubsystem(nqn: string, works: bool) returns (ok: bool)
      modifies this`disconnects
      ensures ok == works
      ensures disconnects == old(disconnects) + [BySubsystem(nqn)]
    {
      disconnects := disconnects + [BySubsystem(nqn)];
      ok := works;
    }

    // The endpoint node.

    method StatEndpoint(works: bool) returns (r: Result<Option<Node>>)
      ensures r == if works then Ok(endpoint) else Err
    {
      r := if works then Ok(endpoint) else Err;
    }

    /** `lsblk` on the endpoint path reports the numbers of the block node that is there. */
    method DetectEndpoint(reply: Option<string>) returns (r: Result<BlockDevice>)
      ensures r == if reply.Some? && reply.value != "" && endpoint.Some? && endpoint.value.isBlock
                   then Ok(BlockDevice(reply.value, endpoint.value.major, endpoint.value.minor)) else Err
    {
      r := Err;
      if reply.Some? && reply.value != "" && endpoint.Some? && endpoint.value.isBlock {
        r := Ok(BlockDevice(reply.value, endpoint.value.major, endpoint.value.minor));
      }
    }

    method RemoveEndpoint(works: bool) returns (ok: bool)
      modifies this`endpoint
      ensures ok == works
      ensures ok ==> endpoint == None
    {
      ok := works;
      if ok {
        endpoint := None;
      } else {
        endpoint := *;
      }
    }

    /** `mknod`, `chmod`, `chown`. */
    method DuplicateDevice(major: int, minor: int, works: bool) returns (ok: bool)
      modifies this`endpoint
      ensures ok == (works && old(endpoint).None?)
      ensures ok ==> endpoint == Some(Node(true, major, minor))
    {
      ok := works && endpoint.None?;
      if ok {
        endpoint := Some(Node(true, major, minor));
      } else if endpoint.None? {
        endpoint := *;
      }
    }

    // The device-mapper device.

    method DmInfo(works: bool) returns (r: Result<DmDevice>)
      ensures r == if works && dm.Some? then Ok(dm.value) else Err
    {
      r := if works && dm.Some? then Ok(dm.value) else Err;
    }

    /** Maps a new device, under the numbers the kernel gives it, onto the source. */
    method DmCreate(source: string, reply: Option<(int, int)>) returns (ok: bool)
      modifies this`dm, this`dmCommands
      ensures ok == (reply.Some? && old(dm).None?)
      ensures ok ==> dm == Some(DmDevice(reply.value.0, reply.value.1, source, None, false))
      ensures dmCommands == old(dmCommands) + (if ok then [DmCreated(source)] else [])
    {
      ok := reply.Some? && dm.None?;
      if ok {
        dmCommands := dmCommands + [DmCreated(source)];
        dm := Some(DmDevice(reply.value.0, reply.value.1, source, None, false));
      } else if dm.None? {
        dm := *;
      }
    }

    method DmSuspend(works: bool) returns (ok: bool)
      modifies this`dm, this`dmCommands
      ensures ok == (works && old(dm).Some?)
      ensures ok ==> dm == Some(old(dm).value.(suspended := true))
      ensures SameNumbers(old(dm), dm)
      ensures dmCommands == old(dmCommands) + (if ok then [DmSuspended] else [])
    {
      ok := works && dm.Some?;
      if ok {
        dmCommands := dmCommands + [DmSuspended];
        dm := Some(dm.value.(suspended := true));
      } else if dm.Some? {
        if * {
          dm := Some(dm.value.(suspended := true));
        }
      }
    }

    /** Loads a table without making it live. */
    method DmReload(source: string, works: bool) returns (ok: bool)
      modifies this`dm, this`dmCommands
      ensures ok == (works && old(dm).Some?)
      ensures ok ==> dm == Some(old(dm).value.(inactive := Some(source)))
      ensures SameNumbers(old(dm), dm)
      ensures dmCommands == old(dmCommands) + (if ok then [DmReloaded(source)] else [])
    {
      ok := works && dm.Some?;
      if ok {
        dmCommands := dmCommands + [DmReloaded(source)];
        dm := Some(dm.value.(inactive := Some(source)));
      } else if dm.Some? {
        if * {
          dm := Some(dm.value.(inactive := Some(source)));
        }
      }
    }

    /** Makes a loaded table live and lets the device run again. */
    method DmResume(works: bool) returns (ok: bool)
      modifies this`dm, this`dmCommands
      ensures ok == (works && old(dm).Some?)
      ensures ok ==> dm == Some(Resumed(old(dm).value))
      ensures SameNumbers(old(dm), dm)
      ensures dmCommands == old(dmCommands) + (if ok then [DmResumed] else [])
    {
      ok := works && dm.Some?;
      if ok {
        dmCommands := dmCommands + [DmResumed];
        dm := Some(Resumed(dm.value));
      } else if dm.Some? {
        if * {
          dm := Some(Resumed(dm.value));
        }
      }
    }

    method DmNumbers(works: bool) returns (r: Result<(int, int)>)
      ensures r == if works && dm.Some? then Ok((dm.value.major, dm.value.minor)) else Err
    {
      r := if works && dm.Some? then Ok((dm.value.major, dm.value.minor)) else Err;
    }

    /** A deferred removal may succeed while the device stays until it is no longer used. */
    method DmRemove(deferred: bool, reply: RemovalReply) returns (r: DmRemoval)
      modifies this`dm
      ensures r == if reply.Unremovable? then RemovalFailed
                   else if old(dm).None? then NoDevice
                   else if reply.InUse? then Busy else Removed
      ensures r.Removed? && !deferred ==> dm == None
      ensures r.NoDevice? || r.Busy? ==> dm == old(dm)
    {
      if reply.Unremovable? {
        r := RemovalFailed;
        dm := *;
      } else if dm.None? {
        r := NoDevice;
      } else if reply.InUse? {
        r := Busy;
      } else {
        r := Removed;
        if deferred {
          if * { dm := None; }
        } else {
          dm := None;
        }
      }
    }
  }

  /** A reply without a name is an error. */
  function Named(reply: Result<BlockDevice>): Result<BlockDevice> {
    if reply.Ok? && reply.value.name == "" then Err else reply
  }

  /** The same device, or still none. */
  predicate SameNumbers(before: Option<DmDevice>, after: Option<DmDevice>) {
    before.Some? == after.Some? &&
    (before.Some? ==> after.value.major == before.value.major && after.value.minor == before.value.minor)
  }

  function Resumed(d: DmDevice): DmDevice {
    d.(live := if d.inactive.Some? then d.inactive.value else d.live, inactive := None, suspended := false)
  }
}
