/** Device discovery: scanning, filtering, and the fallback for native multipath. */
module NvmeDevices {
  import opened NvmeAddress
  import opened Wrappers

  datatype Path = Path(name: string, transport: string, address: string, state: string)
  datatype Subsystem = Subsystem(name: string, nqn: string, paths: seq<Path>)
  datatype Controller = Controller(name: string, transport: string, address: string, state: string)
  datatype Namespace = Namespace(name: string, nsid: int)
  datatype Device = Device(subsystem: string, subsystemNQN: string, controllers: seq<Controller>, namespaces: seq<Namespace>)

  /** One row of `nvme list`. */
  datatype CliDevice = CliDevice(devicePath: string, nsid: int)

  /** What the commands of one discovery printed: the device list, the subsystems behind each
      device path, and the unfiltered subsystem listing. */
  datatype Scan = Scan(
    list: Result<seq<CliDevice>>,
    behind: map<string, Result<seq<Subsystem>>>,
    all: Result<seq<Subsystem>>)

  function SubsystemsBehind(scan: Scan, path: string): Result<seq<Subsystem>> {
    if path in scan.behind then scan.behind[path] else Err
  }

  function WithoutTrailingSlashes(path: string): string {
    if path != "" && path[|path| - 1] == '/' then WithoutTrailingSlashes(path[..|path| - 1]) else path
  }

  function AfterLastSlash(path: string): (r: string)
    ensures path != "" && path[|path| - 1] != '/' ==> r != ""
  {
    if path == "" || path[|path| - 1] == '/' then ""
    else AfterLastSlash(path[..|path| - 1]) + [path[|path| - 1]]
  }

  /** The last element of a slash-separated path; never empty. */
  function Base(path: string): (r: string)
    ensures r != ""
  {
    if path == "" then "."
    else if WithoutTrailingSlashes(path) == "" then "/"
    else
      NoTrailingSlash(path);
      AfterLastSlash(WithoutTrailingSlashes(path))
  }

  lemma NoTrailingSlash(path: string)
    ensures var p := WithoutTrailingSlashes(path); p != "" ==> p[|p| - 1] != '/'
  {}

  function ToController(p: Path): Controller {
    Controller(p.name, p.transport, p.address, p.state)
  }

  function ToControllers(paths: seq<Path>): seq<Controller> {
    seq(|paths|, i requires 0 <= i < |paths| => ToController(paths[i]))
  }

  function ToDevice(sys: Subsystem, d: CliDevice): Device {
    Device(sys.name, sys.nqn, ToControllers(sys.paths), [Namespace(Base(d.devicePath), d.nsid)])
  }

  /** An empty address or port stands for any. */
  predicate AddressMatches(address: string, ip: string, port: string) {
    && (ip == "" || ip == ParseAddress(address).0)
    && (port == "" || port == ParseAddress(address).1)
  }

  predicate HasMatch(controllers: seq<Controller>, ip: string, port: string) {
    exists i :: 0 <= i < |controllers| && AddressMatches(controllers[i].address, ip, port)
  }

  predicate PathMatch(paths: seq<Path>, ip: string, port: string) {
    exists i :: 0 <= i < |paths| && AddressMatches(paths[i].address, ip, port)
  }

  predicate Selected(d: Device, ip: string, port: string, nqn: string) {
    d.subsystemNQN == nqn && HasMatch(d.controllers, ip, port)
  }

  predicate Routed(sys: Subsystem, ip: string, port: string, nqn: string) {
    sys.nqn == nqn && PathMatch(sys.paths, ip, port)
  }

  /** Devices of the listed rows; a row with no single readable subsystem is skipped, one with
      several subsystems fails the scan. */
  function ScanRows(scan: Scan, rows: seq<CliDevice>): Result<seq<Device>> {
    if rows == [] then Ok([])
    else
      var before, d := ScanRows(scan, rows[..|rows| - 1]), rows[|rows| - 1];
      match (before, SubsystemsBehind(scan, d.devicePath))
      case (Err, _) => Err
      case (Ok(_), Err) => before
      case (Ok(devices), Ok(subsystems)) =>
        if |subsystems| == 0 then before
        else if |subsystems| > 1 then Err
        else Ok(devices + [ToDevice(subsystems[0], d)])
  }

  function Select(devices: seq<Device>, ip: string, port: string, nqn: string): (r: seq<Device>) {
    if devices == [] then []
    else
      var before, d := Select(devices[..|devices| - 1], ip, port, nqn), devices[|devices| - 1];
      if Selected(d, ip, port, nqn) && d.namespaces != [] then before + [d] else before
  }

  /** The first scanned device of the subsystem, which owns the one namespace block device. */
  function OwnerOf(devices: seq<Device>, nqn: string): Option<Device> {
    if devices == [] then None
    else if devices[0].subsystemNQN == nqn && devices[0].namespaces != [] then Some(devices[0])
    else OwnerOf(devices[1..], nqn)
  }

  /** Multipath fallback: the owner's namespaces under all controllers of a matching subsystem. */
  function Fallback(devices: seq<Device>, subsystems: seq<Subsystem>, ip: string, port: string, nqn: string): seq<Device> {
    if subsystems == [] then []
    else
      var before, sys := Fallback(devices, subsystems[..|subsystems| - 1], ip, port, nqn), subsystems[|subsystems| - 1];
      var owner := OwnerOf(devices, nqn);
      if Routed(sys, ip, port, nqn) && owner.Some? then
        before + [Device(sys.name, sys.nqn, ToControllers(sys.paths), owner.value.namespaces)]
      else before
  }

  function Devices(scan: Scan, ip: string, port: string, nqn: string): Result<seq<Device>> {
    if scan.list.Err? then Err
    else
      var devices := ScanRows(scan, scan.list.value);
      if devices.Err? || nqn == "" then devices
      else
        var selected := Select(devices.value, ip, port, nqn);
        if selected != [] then Ok(selected)
        else if scan.all.Err? then Err
        else
          var routed := Fallback(devices.value, scan.all.value, ip, port, nqn);
          if routed != [] then Ok(routed) else Err
  }

  method GetDevices(ip: string, port: string, nqn: string, scan: Scan) returns (r: Result<seq<Device>>)
    ensures r == Devices(scan, ip, port, nqn)
  {
    hide Select, Fallback, Base;
    if scan.list.Err? {
      return Err;
    }
    var rows := scan.list.value;
    var devices: seq<Device> := [];
    for n := 0 to |rows|
      invariant ScanRows(scan, rows[..n]) == Ok(devices)
    {
      var d := rows[n];
      assert rows[..n + 1][..n] == rows[..n];
      var behind := SubsystemsBehind(scan, d.devicePath);
      if behind.Err? || |behind.value| == 0 {
        continue;
      }
      if |behind.value| > 1 {
        FailedScan(scan, rows, n + 1);
        return Err;
      }
      var sys := behind.value[0];
      var controllers: seq<Controller> := [];
      for m := 0 to |sys.paths|
        invariant controllers == ToControllers(sys.paths[..m])
      {
        controllers := controllers + [ToController(sys.paths[m])];
      }
      assert sys.paths[..|sys.paths|] == sys.paths;
      devices := devices + [Device(sys.name, sys.nqn, controllers, [Namespace(Base(d.devicePath), d.nsid)])];
    }
    assert rows[..|rows|] == rows;
    if nqn == "" {
      return Ok(devices);
    }

    var res := MatchingDevices(devices, ip, port, nqn);
    if |res| == 0 {
      if scan.all.Err? {
        return Err;
      }
      res := MultipathFallback(devices, scan.all.value, ip, port, nqn);
    }
    if |res| == 0 {
      return Err;
    }
    r := Ok(res);
  }

  method MatchingDevices(devices: seq<Device>, ip: string, port: string, nqn: string) returns (res: seq<Device>)
    ensures res == Select(devices, ip, port, nqn)
  {
    res := [];
    for n := 0 to |devices|
      invariant res == Select(devices[..n], ip, port, nqn)
    {
      var d := devices[n];
      assert devices[..n + 1][..n] == devices[..n];
      if d.subsystemNQN != nqn {
        continue;
      }
      var found := false;
      for m := 0 to |d.controllers|
        invariant !found
        invariant forall i :: 0 <= i < m ==> !AddressMatches(d.controllers[i].address, ip, port)
      {
        var controllerIP, controllerPort := GetIPAndPortFromControllerAddress(d.controllers[m].address);
        if ip != "" && ip != controllerIP {
          continue;
        }
        if port != "" && port != controllerPort {
          continue;
        }
        found := true;
        break;
      }
      if |d.namespaces| == 0 {
        continue;
      }
      if found {
        res := res + [d];
      }
    }
    assert devices[..|devices|] == devices;
  }

  method MultipathFallback(devices: seq<Device>, subsystems: seq<Subsystem>, ip: string, port: string, nqn: string)
    returns (res: seq<Device>)
    ensures res == Fallback(devices, subsystems, ip, port, nqn)
  {
    hide ParseAddress, ToControllers;
    res := [];
    for n := 0 to |subsystems|
      invariant res == Fallback(devices, subsystems[..n], ip, port, nqn)
    {
      var sys := subsystems[n];
      assert subsystems[..n + 1][..n] == subsystems[..n];
      if sys.nqn != nqn {
        continue;
      }
      var pathMatch := false;
      for m := 0 to |sys.paths|
        invariant !pathMatch
        invariant forall i :: 0 <= i < m ==> !AddressMatches(sys.paths[i].address, ip, port)
      {
        var controllerIP, controllerPort := GetIPAndPortFromControllerAddress(sys.paths[m].address);
        if ip != "" && ip != controllerIP {
          continue;
        }
        if port != "" && port != controllerPort {
          continue;
        }
        pathMatch := true;
        break;
      }
      if !pathMatch {
        continue;
      }
      for m := 0 to |devices|
        invariant res == Fallback(devices, subsystems[..n], ip, port, nqn)
        invariant OwnerOf(devices[m..], nqn) == OwnerOf(devices, nqn)
      {
        var d := devices[m];
        assert devices[m..][1..] == devices[m + 1..];
        if d.subsystemNQN != nqn || |d.namespaces| == 0 {
          continue;
        }
        res := res + [Device(sys.name, sys.nqn, ToControllers(sys.paths), d.namespaces)];
        break;
      }
    }
    assert subsystems[..|subsystems|] == subsystems;
  }

  lemma {:induction false} FailedScan(scan: Scan, rows: seq<CliDevice>, n: nat)
    requires n <= |rows| && ScanRows(scan, rows[..n]).Err?
    ensures ScanRows(scan, rows).Err?
    decreases |rows| - n
  {
    if n < |rows| {
      assert rows[..n + 1][..n] == rows[..n];
      FailedScan(scan, rows, n + 1);
    } else {
      assert rows[..n] == rows;
    }
  }

  // What a discovery finds.

  /** The device has one namespace, and it has a name. */
  predicate OneNamespace(d: Device) {
    |d.namespaces| == 1 && d.namespaces[0].name != ""
  }

  lemma {:induction false} ScannedDevices(scan: Scan, rows: seq<CliDevice>)
    requires ScanRows(scan, rows).Ok?
    ensures forall d :: d in ScanRows(scan, rows).value ==> OneNamespace(d)
  {
    if rows != [] {
      ScannedDevices(scan, rows[..|rows| - 1]);
    }
  }

  /** Selection keeps exactly the devices of the subsystem with a matching controller. */
  lemma {:induction false} SelectKeepsMatches(devices: seq<Device>, ip: string, port: string, nqn: string)
    requires forall d :: d in devices ==> OneNamespace(d)
    ensures forall d :: d in Select(devices, ip, port, nqn) <==> d in devices && Selected(d, ip, port, nqn)
  {
    if devices != [] {
      var init, last := devices[..|devices| - 1], devices[|devices| - 1];
      assert devices == init + [last];
      SelectKeepsMatches(init, ip, port, nqn);
    }
  }

  lemma {:induction false} OwnerIsFirst(devices: seq<Device>, nqn: string)
    requires forall d :: d in devices ==> OneNamespace(d)
    ensures OwnerOf(devices, nqn).Some? <==> exists d :: d in devices && d.subsystemNQN == nqn
    ensures OwnerOf(devices, nqn).Some? ==> OwnerOf(devices, nqn).value in devices
  {
    if devices != [] {
      OwnerIsFirst(devices[1..], nqn);
      assert devices == [devices[0]] + devices[1..];
    }
  }

  lemma PathsBecomeControllers(paths: seq<Path>, ip: string, port: string)
    ensures HasMatch(ToControllers(paths), ip, port) <==> PathMatch(paths, ip, port)
  {
    forall i | 0 <= i < |paths|
      ensures ToControllers(paths)[i].address == paths[i].address
    {}
    if PathMatch(paths, ip, port) {
      var i :| 0 <= i < |paths| && AddressMatches(paths[i].address, ip, port);
      assert AddressMatches(ToControllers(paths)[i].address, ip, port);
    }
  }

  lemma {:induction false} FallbackRoutes(devices: seq<Device>, subsystems: seq<Subsystem>, ip: string, port: string, nqn: string)
    requires forall d :: d in devices ==> OneNamespace(d)
    ensures forall d :: d in Fallback(devices, subsystems, ip, port, nqn) ==> Selected(d, ip, port, nqn) && OneNamespace(d)
    ensures Fallback(devices, subsystems, ip, port, nqn) != [] <==>
              OwnerOf(devices, nqn).Some? && exists sys :: sys in subsystems && Routed(sys, ip, port, nqn)
  {
    OwnerIsFirst(devices, nqn);
    if subsystems != [] {
      var init, last := subsystems[..|subsystems| - 1], subsystems[|subsystems| - 1];
      assert subsystems == init + [last];
      FallbackRoutes(devices, init, ip, port, nqn);
      PathsBecomeControllers(last.paths, ip, port);
    }
  }

  /** For a named subsystem a successful discovery is a non-empty list of devices of that
      subsystem, each with one namespace and a controller at the requested address, also when
      only the multipath fallback found it. */
  lemma DevicesMatchRequest(scan: Scan, ip: string, port: string, nqn: string)
    requires nqn != "" && Devices(scan, ip, port, nqn).Ok?
    ensures Devices(scan, ip, port, nqn).value != []
    ensures forall d :: d in Devices(scan, ip, port, nqn).value ==>
              d.subsystemNQN == nqn && OneNamespace(d) && HasMatch(d.controllers, ip, port)
  {
    ScannedDevices(scan, scan.list.value);
    var devices := ScanRows(scan, scan.list.value).value;
    SelectKeepsMatches(devices, ip, port, nqn);
    if Select(devices, ip, port, nqn) == [] {
      FallbackRoutes(devices, scan.all.value, ip, port, nqn);
    }
  }

  /** Named or not, whatever is discovered has one namespace with a name. */
  lemma DevicesHaveOneNamespace(scan: Scan, ip: string, port: string, nqn: string)
    requires Devices(scan, ip, port, nqn).Ok?
    ensures forall d :: d in Devices(scan, ip, port, nqn).value ==> OneNamespace(d)
  {
    if nqn == "" {
      ScannedDevices(scan, scan.list.value);
    } else {
      DevicesMatchRequest(scan, ip, port, nqn);
    }
    hide ScanRows, Select, Fallback;
  }

  /** When a named subsystem is found: exactly when a scanned device matches, or a device of
      the subsystem was scanned and the unfiltered listing has a matching path for it. A
      direct match is never lost to the fallback, and none is left out. */
  lemma DevicesFoundIff(scan: Scan, ip: string, port: string, nqn: string)
    requires nqn != "" && scan.list.Ok? && ScanRows(scan, scan.list.value).Ok?
    ensures var devices := ScanRows(scan, scan.list.value).value;
            var direct := exists d :: d in devices && Selected(d, ip, port, nqn);
            && (Devices(scan, ip, port, nqn).Ok? <==>
                  direct || (scan.all.Ok? && (exists d :: d in devices && d.subsystemNQN == nqn) &&
                             (exists sys :: sys in scan.all.value && Routed(sys, ip, port, nqn))))
            && (direct ==> forall d :: d in Devices(scan, ip, port, nqn).value <==> d in devices && Selected(d, ip, port, nqn))
  {
    ScannedDevices(scan, scan.list.value);
    var devices := ScanRows(scan, scan.list.value).value;
    SelectKeepsMatches(devices, ip, port, nqn);
    OwnerIsFirst(devices, nqn);
    if scan.all.Ok? {
      FallbackRoutes(devices, scan.all.value, ip, port, nqn);
    }
    var selected := Select(devices, ip, port, nqn);
    if selected != [] {
      assert selected[0] in devices && Selected(selected[0], ip, port, nqn);
    }
    hide Select, Fallback, OwnerOf, ScanRows;
  }

  // Choosing a controller, and finding one to disconnect.

  function FirstAt(controllers: seq<Controller>, ip: string, port: string): Option<Controller> {
    if controllers == [] then None
    else if ParseAddress(controllers[0].address) == (ip, port) then Some(controllers[0])
    else FirstAt(controllers[1..], ip, port)
  }

  function FirstNamed(controllers: seq<Controller>, name: string): Option<Controller> {
    if controllers == [] then None
    else if controllers[0].name == name then Some(controllers[0])
    else FirstNamed(controllers[1..], name)
  }

  /** By address, else by the recorded name, else the first one. */
  function SelectController(d: Device, ip: string, port: string, recorded: string): Result<Controller> {
    if d.controllers == [] then Err
    else
      var byAddress := if ip != "" && port != "" then FirstAt(d.controllers, ip, port) else None;
      if byAddress.Some? then Ok(byAddress.value)
      else
        var byName := if recorded != "" then FirstNamed(d.controllers, recorded) else None;
        if byName.Some? then Ok(byName.value) else Ok(d.controllers[0])
  }

  method SelectControllerForNVMeDevice(d: Device, ip: string, port: string, recorded: string) returns (r: Result<Controller>)
    ensures r == SelectController(d, ip, port, recorded)
  {
    if |d.controllers| == 0 {
      return Err;
    }
    if ip != "" && port != "" {
      for n := 0 to |d.controllers|
        invariant FirstAt(d.controllers[n..], ip, port) == FirstAt(d.controllers, ip, port)
      {
        assert d.controllers[n..][1..] == d.controllers[n + 1..];
        var controllerIP, controllerPort := GetIPAndPortFromControllerAddress(d.controllers[n].address);
        if controllerIP == ip && controllerPort == port {
          return Ok(d.controllers[n]);
        }
      }
    }
    if recorded != "" {
      for n := 0 to |d.controllers|
        invariant FirstNamed(d.controllers[n..], recorded) == FirstNamed(d.controllers, recorded)
      {
        assert d.controllers[n..][1..] == d.controllers[n + 1..];
        if d.controllers[n].name == recorded {
          return Ok(d.controllers[n]);
        }
      }
    }
    r := Ok(d.controllers[0]);
  }

  lemma {:induction false} FirstAtFinds(controllers: seq<Controller>, ip: string, port: string)
    requires ip != "" && port != ""
    ensures FirstAt(controllers, ip, port).Some? <==> HasMatch(controllers, ip, port)
    ensures FirstAt(controllers, ip, port).Some? ==>
              ParseAddress(FirstAt(controllers, ip, port).value.address) == (ip, port)
  {
    if controllers != [] {
      FirstAtFinds(controllers[1..], ip, port);
      if HasMatch(controllers, ip, port) && !AddressMatches(controllers[0].address, ip, port) {
        var i :| 0 <= i < |controllers| && AddressMatches(controllers[i].address, ip, port);
        assert AddressMatches(controllers[1..][i - 1].address, ip, port);
      }
      if HasMatch(controllers[1..], ip, port) {
        var i :| 0 <= i < |controllers| - 1 && AddressMatches(controllers[1..][i].address, ip, port);
        assert AddressMatches(controllers[i + 1].address, ip, port);
      }
    }
  }

  lemma {:induction false} FirstAtIsListed(controllers: seq<Controller>, ip: string, port: string)
    ensures FirstAt(controllers, ip, port).Some? ==> FirstAt(controllers, ip, port).value in controllers
  {
    if controllers != [] {
      FirstAtIsListed(controllers[1..], ip, port);
    }
  }

  lemma {:induction false} FirstNamedIsListed(controllers: seq<Controller>, name: string)
    ensures FirstNamed(controllers, name).Some? ==> FirstNamed(controllers, name).value in controllers
  {
    if controllers != [] {
      FirstNamedIsListed(controllers[1..], name);
    }
  }

  /** Whatever the choice falls back to, it is one of the device's controllers. */
  lemma SelectionIsListed(d: Device, ip: string, port: string, recorded: string)
    ensures SelectController(d, ip, port, recorded).Ok? <==> d.controllers != []
    ensures SelectController(d, ip, port, recorded).Ok? ==> SelectController(d, ip, port, recorded).value in d.controllers
  {
    FirstAtIsListed(d.controllers, ip, port);
    FirstNamedIsListed(d.controllers, recorded);
    hide FirstAt, FirstNamed;
  }

  /** With an address and a port, a discovered device's controller is chosen by address: the
      recorded name and the first-controller fallback never come into play. */
  lemma SelectsByAddress(scan: Scan, ip: string, port: string, nqn: string, d: Device, recorded: string)
    requires ip != "" && port != "" && nqn != ""
    requires Devices(scan, ip, port, nqn).Ok? && d in Devices(scan, ip, port, nqn).value
    ensures SelectController(d, ip, port, recorded).Ok?
    ensures ParseAddress(SelectController(d, ip, port, recorded).value.address) == (ip, port)
    ensures SelectController(d, ip, port, recorded) == SelectController(d, ip, port, "")
  {
    DevicesMatchRequest(scan, ip, port, nqn);
    FirstAtFinds(d.controllers, ip, port);
  }

  /** A device found at an address has a controller there, but its first one may be another:
      it stands there exactly when choosing by address chooses it, as a lone one always is. */
  lemma FirstControllerAtAddress(scan: Scan, ip: string, port: string, nqn: string, d: Device)
    requires ip != "" && port != "" && nqn != ""
    requires Devices(scan, ip, port, nqn).Ok? && d in Devices(scan, ip, port, nqn).value
    ensures d.controllers != []
    ensures ParseAddress(d.controllers[0].address) == (ip, port)
       <==> SelectController(d, ip, port, "") == Ok(d.controllers[0])
    ensures |d.controllers| == 1 ==> ParseAddress(d.controllers[0].address) == (ip, port)
  {
    SelectsByAddress(scan, ip, port, nqn, d, "");
    if |d.controllers| == 1 {
      assert FirstAt(d.controllers[1..], ip, port) == None;
    }
  }

  /** The listing behind a device path shows only the path that owns it, as native multipath
      prints it. */
  ghost predicate OnePathBehind(scan: Scan) {
    forall path, sys :: path in scan.behind && scan.behind[path].Ok? && sys in scan.behind[path].value ==> |sys.paths| == 1
  }

  lemma {:induction false} ScannedHaveOneController(scan: Scan, rows: seq<CliDevice>)
    requires OnePathBehind(scan) && ScanRows(scan, rows).Ok?
    ensures forall d :: d in ScanRows(scan, rows).value ==> |d.controllers| == 1
  {
    if rows != [] {
      ScannedHaveOneController(scan, rows[..|rows| - 1]);
    }
  }

  /** On such a host the first controller of every device found without the fallback stands at
      the requested address. */
  lemma DirectMatchStandsThere(scan: Scan, ip: string, port: string, nqn: string, direct: Device, d: Device)
    requires ip != "" && port != "" && nqn != "" && OnePathBehind(scan)
    requires Devices(scan, ip, port, nqn).Ok? && d in Devices(scan, ip, port, nqn).value
    requires direct in ScanRows(scan, scan.list.value).value && Selected(direct, ip, port, nqn)
    ensures |d.controllers| == 1 && ParseAddress(d.controllers[0].address) == (ip, port)
  {
    DevicesFoundIff(scan, ip, port, nqn);
    ScannedHaveOneController(scan, scan.list.value);
    FirstControllerAtAddress(scan, ip, port, nqn, d);
    hide Devices, ScanRows, ParseAddress;
  }

  /** A multipath subsystem whose device path belongs to one path is found at its other path's
      address by the fallback, and its first controller stands at the owning path's. */
  lemma FirstControllerElsewhere(here: Path, there: Path, nqn: string, ip: string, port: string) returns (scan: Scan)
    requires nqn != "" && ip != "" && port != ""
    requires ParseAddress(here.address) == (ip, port)
    requires ParseAddress(there.address) != (ip, port)
    ensures OnePathBehind(scan)
    ensures Devices(scan, ip, port, nqn).Ok? && |Devices(scan, ip, port, nqn).value| == 1
    ensures var d := Devices(scan, ip, port, nqn).value[0];
            d.controllers == [ToController(there), ToController(here)] && ParseAddress(d.controllers[0].address) != (ip, port)
  {
    var sys, row := Subsystem("", nqn, [there]), CliDevice("", 1);
    var full := Subsystem("", nqn, [there, here]);
    scan := OneRow(sys, row, Ok([full]));
    var d := ToDevice(sys, row);
    assert AddressMatches(full.paths[1].address, ip, port);
    assert !HasMatch(d.controllers, ip, port);
    OnlyTheFallbackFinds(d, full, ip, port, nqn);
    hide ParseAddress, Select, Fallback, ToDevice;
  }

  /** A device without a match, of a subsystem listed with one. */
  lemma OnlyTheFallbackFinds(d: Device, sys: Subsystem, ip: string, port: string, nqn: string)
    requires d.subsystemNQN == nqn && OneNamespace(d) && !HasMatch(d.controllers, ip, port)
    requires Routed(sys, ip, port, nqn)
    ensures Select([d], ip, port, nqn) == []
    ensures Fallback([d], [sys], ip, port, nqn) == [Device(sys.name, sys.nqn, ToControllers(sys.paths), d.namespaces)]
  {
    assert [d][..0] == [] && [sys][..0] == [];
    assert OwnerOf([d], nqn) == Some(d);
    assert Fallback([d], [], ip, port, nqn) == [];
    assert [] + [Device(sys.name, sys.nqn, ToControllers(sys.paths), d.namespaces)] ==
           [Device(sys.name, sys.nqn, ToControllers(sys.paths), d.namespaces)];
    hide Routed, HasMatch, ToControllers;
  }

  /** A scan that lists one row with one subsystem behind it. */
  function OneRow(sys: Subsystem, row: CliDevice, all: Result<seq<Subsystem>>): (scan: Scan)
    ensures scan.list == Ok([row]) && scan.all == all
    ensures ScanRows(scan, [row]) == Ok([ToDevice(sys, row)])
  {
    var scan := Scan(Ok([row]), map[row.devicePath := Ok([sys])], all);
    OneRowScanned(scan, sys, row);
    scan
  }

  lemma OneRowFound(sys: Subsystem, row: CliDevice, all: Result<seq<Subsystem>>, ip: string, port: string, nqn: string)
    requires nqn != "" && Routed(sys, ip, port, nqn)
    ensures Devices(OneRow(sys, row, all), ip, port, nqn) == Ok([ToDevice(sys, row)])
  {
    PathsBecomeControllers(sys.paths, ip, port);
    var d := ToDevice(sys, row);
    assert Selected(d, ip, port, nqn);
    hide Selected, HasMatch, PathMatch, ToControllers, OneRow;
    assert [d][..0] == [];
    assert Select([], ip, port, nqn) == [];
    assert Select([d], ip, port, nqn) == [] + [d];
  }

  lemma OneRowScanned(scan: Scan, sys: Subsystem, row: CliDevice)
    requires scan.behind == map[row.devicePath := Ok([sys])]
    ensures ScanRows(scan, [row]) == Ok([ToDevice(sys, row)])
  {
    assert [row][..0] == [];
    assert ScanRows(scan, []) == Ok([]);
    assert [] + [ToDevice(sys, row)] == [ToDevice(sys, row)];
    hide ToDevice;
  }

  function FirstPathAt(paths: seq<Path>, ip: string, port: string): Option<Path> {
    if paths == [] then None
    else if ParseAddress(paths[0].address) == (ip, port) then Some(paths[0])
    else FirstPathAt(paths[1..], ip, port)
  }

  /** The first path of the subsystem at exactly this address. */
  function FirstRoute(subsystems: seq<Subsystem>, nqn: string, ip: string, port: string): Option<Path> {
    if subsystems == [] then None
    else
      var here := if subsystems[0].nqn == nqn then FirstPathAt(subsystems[0].paths, ip, port) else None;
      if here.Some? then here else FirstRoute(subsystems[1..], nqn, ip, port)
  }

  method FindRoute(subsystems: seq<Subsystem>, nqn: string, ip: string, port: string) returns (r: Option<Path>)
    ensures r == FirstRoute(subsystems, nqn, ip, port)
  {
    for n := 0 to |subsystems|
      invariant FirstRoute(subsystems[n..], nqn, ip, port) == FirstRoute(subsystems, nqn, ip, port)
    {
      var sys := subsystems[n];
      assert subsystems[n..][1..] == subsystems[n + 1..];
      if sys.nqn != nqn {
        continue;
      }
      for m := 0 to |sys.paths|
        invariant FirstPathAt(sys.paths[m..], ip, port) == FirstPathAt(sys.paths, ip, port)
      {
        assert sys.paths[m..][1..] == sys.paths[m + 1..];
        var controllerIP, controllerPort := GetIPAndPortFromControllerAddress(sys.paths[m].address);
        if controllerIP == ip && controllerPort == port {
          return Some(sys.paths[m]);
        }
      }
    }
    r := None;
  }

  /** The path belongs to a listed subsystem of this name and stands at this address. */
  ghost predicate RouteOf(subsystems: seq<Subsystem>, p: Path, nqn: string, ip: string, port: string) {
    ParseAddress(p.address) == (ip, port) && exists sys :: sys in subsystems && sys.nqn == nqn && p in sys.paths
  }

  lemma {:induction false} FirstPathAtFinds(paths: seq<Path>, ip: string, port: string)
    ensures var r := FirstPathAt(paths, ip, port);
            && (r.Some? ==> r.value in paths && ParseAddress(r.value.address) == (ip, port))
            && (r.None? ==> forall p :: p in paths ==> ParseAddress(p.address) != (ip, port))
  {
    if paths != [] {
      FirstPathAtFinds(paths[1..], ip, port);
      assert paths == [paths[0]] + paths[1..];
    }
  }

  lemma {:induction false} FirstRouteFinds(subsystems: seq<Subsystem>, nqn: string, ip: string, port: string)
    ensures var r := FirstRoute(subsystems, nqn, ip, port);
            && (r.Some? ==> RouteOf(subsystems, r.value, nqn, ip, port))
            && (r.None? ==> forall p :: !RouteOf(subsystems, p, nqn, ip, port))
  {
    if subsystems != [] {
      FirstRouteFinds(subsystems[1..], nqn, ip, port);
      FirstPathAtFinds(subsystems[0].paths, ip, port);
      forall p
        ensures RouteOf(subsystems, p, nqn, ip, port) <==>
                  RouteOf(subsystems[1..], p, nqn, ip, port) ||
                  (subsystems[0].nqn == nqn && p in subsystems[0].paths && ParseAddress(p.address) == (ip, port))
      {
        RouteOfHeadOrTail(subsystems, p, nqn, ip, port);
      }
      hide RouteOf;
    }
  }

  lemma RouteOfHeadOrTail(subsystems: seq<Subsystem>, p: Path, nqn: string, ip: string, port: string)
    requires subsystems != []
    ensures RouteOf(subsystems, p, nqn, ip, port) <==>
              RouteOf(subsystems[1..], p, nqn, ip, port) ||
              (subsystems[0].nqn == nqn && p in subsystems[0].paths && ParseAddress(p.address) == (ip, port))
  {
    hide ParseAddress;
    assert forall sys :: sys in subsystems <==> sys == subsystems[0] || sys in subsystems[1..];
  }
}
