/** What a discovery yields, said of the rows and subsystems the host printed: which rows become
    devices, in which order, and what each device shows. */
module NvmeDiscovery {
  import opened NvmeAddress
  import opened NvmeDevices
  import opened Wrappers

  // Rows and devices.

  predicate Reported(scan: Scan, row: CliDevice) {
    row.devicePath in scan.behind && scan.behind[row.devicePath].Ok?
  }

  /** Several subsystems behind one row. */
  predicate Ambiguous(scan: Scan, row: CliDevice) {
    Reported(scan, row) && |scan.behind[row.devicePath].value| > 1
  }

  predicate Single(scan: Scan, row: CliDevice) {
    Reported(scan, row) && |scan.behind[row.devicePath].value| == 1
  }

  function SubsystemOf(scan: Scan, row: CliDevice): Subsystem
    requires Single(scan, row)
  {
    scan.behind[row.devicePath].value[0]
  }

  /** `name` is what stands between the last slash, trailing ones aside, and the end. */
  ghost predicate LastElement(path: string, name: string) {
    if path == "" then name == "."
    else if forall i :: 0 <= i < |path| ==> path[i] == '/' then name == "/"
    else exists a: nat, b: nat :: Element(path, a, b) && name == path[a..b]
  }

  predicate Element(path: string, a: nat, b: nat) {
    && a < b <= |path|
    && (a > 0 ==> path[a - 1] == '/')
    && (forall i :: a <= i < b ==> path[i] != '/')
    && (forall i :: b <= i < |path| ==> path[i] == '/')
  }

  predicate Carries(c: Controller, p: Path) {
    c.name == p.name && c.transport == p.transport && c.address == p.address && c.state == p.state
  }

  /** The device shows this subsystem, one controller per path in order, and one namespace: the
      row's. */
  ghost predicate Describes(d: Device, sys: Subsystem, row: CliDevice) {
    && d.subsystem == sys.name && d.subsystemNQN == sys.nqn
    && |d.controllers| == |sys.paths|
    && (forall i :: 0 <= i < |sys.paths| ==> Carries(d.controllers[i], sys.paths[i]))
    && |d.namespaces| == 1 && d.namespaces[0].nsid == row.nsid && LastElement(row.devicePath, d.namespaces[0].name)
  }

  /** A path of the subsystem stands at the address; an empty address or port stands for any. */
  ghost predicate Serves(sys: Subsystem, ip: string, port: string, nqn: string) {
    sys.nqn == nqn &&
    exists i :: 0 <= i < |sys.paths| && Stands(sys.paths[i].address, ip, port)
  }

  predicate Stands(address: string, ip: string, port: string) {
    (ip != "" ==> ParseAddress(address).0 == ip) && (port != "" ==> ParseAddress(address).1 == port)
  }

  /** Positions below n, in order and each once. */
  predicate Increasing(at: seq<nat>, n: nat) {
    && (forall j :: 0 <= j < |at| ==> at[j] < n)
    && (forall i, j :: 0 <= i < j < |at| ==> at[i] < at[j])
  }

  lemma {:induction false} AfterLastSlashTakes(path: string) returns (a: nat)
    ensures a <= |path| && AfterLastSlash(path) == path[a..]
    ensures a > 0 ==> path[a - 1] == '/'
    ensures forall i :: a <= i < |path| ==> path[i] != '/'
  {
    if path == "" || path[|path| - 1] == '/' {
      a := |path|;
    } else {
      var init := path[..|path| - 1];
      a := AfterLastSlashTakes(init);
      assert path[a..] == init[a..] + [path[|path| - 1]];
      assert forall i :: a <= i < |init| ==> path[i] == init[i];
    }
  }

  lemma {:induction false} WithoutTrailingSlashesTakes(path: string) returns (b: nat)
    ensures b <= |path| && WithoutTrailingSlashes(path) == path[..b]
    ensures b > 0 ==> path[b - 1] != '/'
    ensures forall i :: b <= i < |path| ==> path[i] == '/'
  {
    if path != "" && path[|path| - 1] == '/' {
      var init := path[..|path| - 1];
      b := WithoutTrailingSlashesTakes(init);
      assert init[..b] == path[..b];
      assert forall i :: b <= i < |init| ==> path[i] == init[i];
    } else {
      b := |path|;
      assert path[..b] == path;
    }
  }

  lemma BaseIsLastElement(path: string)
    ensures LastElement(path, Base(path))
  {
    if path != "" {
      var b := WithoutTrailingSlashesTakes(path);
      var trimmed := path[..b];
      var a := AfterLastSlashTakes(trimmed);
      hide AfterLastSlash, WithoutTrailingSlashes;
      if b > 0 {
        assert path[b - 1] == trimmed[b - 1];
        assert forall i :: 0 <= i < b ==> trimmed[i] == path[i];
        assert trimmed[a..] == path[a..b];
        assert |trimmed[a..]| > 0;
        assert Element(path, a, b);
      }
    }
  }

  lemma ToDeviceDescribes(sys: Subsystem, row: CliDevice)
    ensures Describes(ToDevice(sys, row), sys, row)
  {
    BaseIsLastElement(row.devicePath);
    hide Base, LastElement;
  }

  lemma DescribedServes(d: Device, sys: Subsystem, row: CliDevice, ip: string, port: string, nqn: string)
    requires Describes(d, sys, row)
    ensures Selected(d, ip, port, nqn) <==> Serves(sys, ip, port, nqn)
  {
    hide ParseAddress, LastElement;
    assert forall i :: 0 <= i < |sys.paths| ==>
             (AddressMatches(d.controllers[i].address, ip, port) <==> Stands(sys.paths[i].address, ip, port));
    if Serves(sys, ip, port, nqn) {
      var i :| 0 <= i < |sys.paths| && Stands(sys.paths[i].address, ip, port);
      assert AddressMatches(d.controllers[i].address, ip, port);
    }
    if Selected(d, ip, port, nqn) {
      var i :| 0 <= i < |d.controllers| && AddressMatches(d.controllers[i].address, ip, port);
      assert Stands(sys.paths[i].address, ip, port);
    }
  }

  lemma RoutedServes(sys: Subsystem, ip: string, port: string, nqn: string)
    ensures Routed(sys, ip, port, nqn) <==> Serves(sys, ip, port, nqn)
  {
    hide ParseAddress;
    assert forall p: Path :: AddressMatches(p.address, ip, port) <==> Stands(p.address, ip, port);
    if Serves(sys, ip, port, nqn) {
      var i :| 0 <= i < |sys.paths| && Stands(sys.paths[i].address, ip, port);
      assert AddressMatches(sys.paths[i].address, ip, port);
    }
  }

  // The scan.

  /** The devices are those of the rows at these positions, which are exactly the rows with a
      single readable subsystem. */
  ghost predicate ScanOf(scan: Scan, rows: seq<CliDevice>, devices: seq<Device>, at: seq<nat>) {
    && |devices| == |at| && Increasing(at, |rows|)
    && (forall i: nat :: i < |rows| ==> (Single(scan, rows[i]) <==> i in at))
    && (forall j :: 0 <= j < |at| ==>
          Single(scan, rows[at[j]]) && Describes(devices[j], SubsystemOf(scan, rows[at[j]]), rows[at[j]]))
  }

  lemma ScanRowsUnfolds(scan: Scan, init: seq<CliDevice>, row: CliDevice)
    ensures ScanRows(scan, init + [row]).Err? <==> ScanRows(scan, init).Err? || Ambiguous(scan, row)
    ensures ScanRows(scan, init + [row]).Ok? ==>
              ScanRows(scan, init + [row]).value ==
              if Single(scan, row) then ScanRows(scan, init).value + [ToDevice(SubsystemOf(scan, row), row)]
              else ScanRows(scan, init).value
  {
    hide ToDevice;
    assert (init + [row])[..|init|] == init;
  }

  lemma ScanOfGrows(scan: Scan, init: seq<CliDevice>, row: CliDevice, devices: seq<Device>, at: seq<nat>)
    requires ScanOf(scan, init, devices, at)
    ensures Single(scan, row) ==>
              ScanOf(scan, init + [row], devices + [ToDevice(SubsystemOf(scan, row), row)], at + [|init|])
    ensures !Single(scan, row) ==> ScanOf(scan, init + [row], devices, at)
  {
    if Single(scan, row) {
      ToDeviceDescribes(SubsystemOf(scan, row), row);
      OneMorePosition(at, |init|);
    } else {
      MoreRoom(at, |init|);
    }
    hide Describes, Increasing, ToDevice, SubsystemOf;
  }

  lemma {:induction false} ScansSingleRows(scan: Scan, rows: seq<CliDevice>) returns (at: seq<nat>)
    ensures ScanRows(scan, rows).Err? <==> exists i :: 0 <= i < |rows| && Ambiguous(scan, rows[i])
    ensures ScanRows(scan, rows).Ok? ==> ScanOf(scan, rows, ScanRows(scan, rows).value, at)
  {
    if rows == [] {
      at := [];
    } else {
      hide ScanRows, ScanOf, Ambiguous, ToDevice, SubsystemOf, Single;
      var init, row := rows[..|rows| - 1], rows[|rows| - 1];
      assert init + [row] == rows;
      var before := ScansSingleRows(scan, init);
      AmbiguousInitOrLast(scan, init, row);
      ScanRowsUnfolds(scan, init, row);
      if ScanRows(scan, init).Ok? {
        ScanOfGrows(scan, init, row, ScanRows(scan, init).value, before);
      }
      at := if Single(scan, row) then before + [|init|] else before;
    }
  }

  lemma AmbiguousInitOrLast(scan: Scan, init: seq<CliDevice>, last: CliDevice)
    ensures (exists i :: 0 <= i < |init + [last]| && Ambiguous(scan, (init + [last])[i])) <==>
              Ambiguous(scan, last) || exists i :: 0 <= i < |init| && Ambiguous(scan, init[i])
  {
    hide Ambiguous;
    var rows := init + [last];
    assert rows[|init|] == last;
    if i :| 0 <= i < |init| && Ambiguous(scan, init[i]) {
      assert Ambiguous(scan, rows[i]);
    }
  }

  lemma OneMorePosition(at: seq<nat>, n: nat)
    requires Increasing(at, n)
    ensures Increasing(at + [n], n + 1) && n !in at
    ensures forall i :: i in at + [n] <==> i in at || i == n
  {}

  lemma MoreRoom(at: seq<nat>, n: nat)
    requires Increasing(at, n)
    ensures Increasing(at, n + 1) && n !in at
  {}

  /** An unfiltered discovery fails exactly when the listing does or a row is ambiguous. Otherwise
      it yields, in order, exactly one device per row with a single readable subsystem. */
  lemma UnfilteredDiscovery(scan: Scan, ip: string, port: string) returns (at: seq<nat>)
    ensures Devices(scan, ip, port, "").Err? <==>
              scan.list.Err? || exists i :: 0 <= i < |scan.list.value| && Ambiguous(scan, scan.list.value[i])
    ensures Devices(scan, ip, port, "").Ok? ==> ScanOf(scan, scan.list.value, Devices(scan, ip, port, "").value, at)
  {
    at := [];
    if scan.list.Ok? {
      at := ScansSingleRows(scan, scan.list.value);
    }
    hide ScanOf, ScanRows, Ambiguous;
  }

  // The filter and the fallback.

  lemma SelectUnfolds(init: seq<Device>, last: Device, ip: string, port: string, nqn: string)
    requires last.namespaces != []
    ensures Select(init + [last], ip, port, nqn) ==
              if Selected(last, ip, port, nqn) then Select(init, ip, port, nqn) + [last] else Select(init, ip, port, nqn)
  {
    hide Selected;
    assert (init + [last])[..|init|] == init;
  }

  /** The positions of the marks that are set. */
  function Positions(marks: seq<bool>): seq<nat> {
    if marks == [] then []
    else
      var n := |marks| - 1;
      if marks[n] then Positions(marks[..n]) + [n] else Positions(marks[..n])
  }

  lemma {:induction false} PositionsAre(marks: seq<bool>)
    ensures Increasing(Positions(marks), |marks|)
    ensures forall i: nat :: i < |marks| ==> (marks[i] <==> i in Positions(marks))
  {
    if marks != [] {
      hide Increasing;
      var n := |marks| - 1;
      var init := marks[..n];
      PositionsAre(init);
      if marks[n] {
        OneMorePosition(Positions(init), n);
      } else {
        MoreRoom(Positions(init), n);
      }
      forall i: nat | i < |marks|
        ensures marks[i] <==> i in Positions(marks)
      {
        if i < n { assert marks[i] == init[i]; }
      }
    }
  }

  lemma {:induction false} SelectTakes(devices: seq<Device>, marks: seq<bool>, ip: string, port: string, nqn: string)
    requires |marks| == |devices|
    requires forall i :: 0 <= i < |devices| ==> devices[i].namespaces != [] && marks[i] == Selected(devices[i], ip, port, nqn)
    ensures |Select(devices, ip, port, nqn)| == |Positions(marks)|
    ensures forall j :: 0 <= j < |Positions(marks)| ==>
              Positions(marks)[j] < |devices| && Select(devices, ip, port, nqn)[j] == devices[Positions(marks)[j]]
  {
    if devices != [] {
      hide Selected, Select;
      var n := |devices| - 1;
      var init, last := devices[..n], devices[n];
      assert devices == init + [last];
      SelectTakes(init, marks[..n], ip, port, nqn);
      SelectUnfolds(init, last, ip, port, nqn);
    }
  }

  lemma SelectPicks(devices: seq<Device>, ip: string, port: string, nqn: string) returns (at: seq<nat>)
    requires forall i :: 0 <= i < |devices| ==> devices[i].namespaces != []
    ensures |Select(devices, ip, port, nqn)| == |at| && Increasing(at, |devices|)
    ensures forall i: nat :: i < |devices| ==> (Selected(devices[i], ip, port, nqn) <==> i in at)
    ensures forall j :: 0 <= j < |at| ==> at[j] < |devices| && Select(devices, ip, port, nqn)[j] == devices[at[j]]
  {
    hide Selected, Select, Increasing;
    var marks := seq(|devices|, i requires 0 <= i < |devices| => Selected(devices[i], ip, port, nqn));
    at := Positions(marks);
    PositionsAre(marks);
    SelectTakes(devices, marks, ip, port, nqn);
    hide Positions;
    forall i: nat | i < |devices|
      ensures Selected(devices[i], ip, port, nqn) <==> i in at
    {
      assert marks[i] == Selected(devices[i], ip, port, nqn);
    }
  }

  /** The owner is the first device of the subsystem. */
  lemma {:induction false} OwnerIsAt(devices: seq<Device>, nqn: string) returns (k: nat)
    requires forall i :: 0 <= i < |devices| ==> devices[i].namespaces != []
    ensures OwnerOf(devices, nqn).Some? ==>
              && k < |devices| && OwnerOf(devices, nqn).value == devices[k] && devices[k].subsystemNQN == nqn
              && forall i :: 0 <= i < k ==> devices[i].subsystemNQN != nqn
    ensures OwnerOf(devices, nqn).None? ==> forall i :: 0 <= i < |devices| ==> devices[i].subsystemNQN != nqn
  {
    k := 0;
    if devices != [] && devices[0].subsystemNQN != nqn {
      var rest := devices[1..];
      assert forall i :: 0 < i < |devices| ==> devices[i] == rest[i - 1];
      var j := OwnerIsAt(rest, nqn);
      k := j + 1;
    }
  }

  /** The device of the fallback for a subsystem: its own controllers over the owner's namespaces. */
  function Rerouted(sys: Subsystem, owner: Device): Device {
    Device(sys.name, sys.nqn, ToControllers(sys.paths), owner.namespaces)
  }

  lemma FallbackUnfolds(devices: seq<Device>, init: seq<Subsystem>, last: Subsystem, ip: string, port: string, nqn: string)
    requires OwnerOf(devices, nqn).Some?
    ensures Fallback(devices, init + [last], ip, port, nqn) ==
              if Serves(last, ip, port, nqn)
              then Fallback(devices, init, ip, port, nqn) + [Rerouted(last, OwnerOf(devices, nqn).value)]
              else Fallback(devices, init, ip, port, nqn)
  {
    RoutedServes(last, ip, port, nqn);
    hide Serves, Routed, OwnerOf, ToControllers;
    assert (init + [last])[..|init|] == init;
  }

  lemma {:induction false} FallbackTakes(devices: seq<Device>, subsystems: seq<Subsystem>, marks: seq<bool>, ip: string, port: string, nqn: string)
    requires OwnerOf(devices, nqn).Some? && |marks| == |subsystems|
    requires forall i :: 0 <= i < |subsystems| ==> marks[i] == Serves(subsystems[i], ip, port, nqn)
    ensures |Fallback(devices, subsystems, ip, port, nqn)| == |Positions(marks)|
    ensures forall j :: 0 <= j < |Positions(marks)| ==>
              Positions(marks)[j] < |subsystems| &&
              Fallback(devices, subsystems, ip, port, nqn)[j] == Rerouted(subsystems[Positions(marks)[j]], OwnerOf(devices, nqn).value)
  {
    if subsystems != [] {
      hide Serves, Fallback, Rerouted, OwnerOf;
      var n := |subsystems| - 1;
      var init, last := subsystems[..n], subsystems[n];
      assert subsystems == init + [last];
      FallbackTakes(devices, init, marks[..n], ip, port, nqn);
      FallbackUnfolds(devices, init, last, ip, port, nqn);
    }
  }

  lemma FallbackPicks(devices: seq<Device>, subsystems: seq<Subsystem>, ip: string, port: string, nqn: string)
    returns (via: seq<nat>)
    requires OwnerOf(devices, nqn).Some?
    ensures |Fallback(devices, subsystems, ip, port, nqn)| == |via| && Increasing(via, |subsystems|)
    ensures forall i: nat :: i < |subsystems| ==> (Serves(subsystems[i], ip, port, nqn) <==> i in via)
    ensures forall j :: 0 <= j < |via| ==>
              via[j] < |subsystems| &&
              Fallback(devices, subsystems, ip, port, nqn)[j] == Rerouted(subsystems[via[j]], OwnerOf(devices, nqn).value)
  {
    hide Serves, Fallback, Rerouted, OwnerOf, Increasing;
    var marks := seq(|subsystems|, i requires 0 <= i < |subsystems| => Serves(subsystems[i], ip, port, nqn));
    via := Positions(marks);
    PositionsAre(marks);
    FallbackTakes(devices, subsystems, marks, ip, port, nqn);
    hide Positions;
    forall i: nat | i < |subsystems|
      ensures Serves(subsystems[i], ip, port, nqn) <==> i in via
    {
      assert marks[i] == Serves(subsystems[i], ip, port, nqn);
    }
  }

  lemma {:induction false} NoOwnerNoFallback(devices: seq<Device>, subsystems: seq<Subsystem>, ip: string, port: string, nqn: string)
    requires OwnerOf(devices, nqn).None?
    ensures Fallback(devices, subsystems, ip, port, nqn) == []
  {
    if subsystems != [] {
      NoOwnerNoFallback(devices, subsystems[..|subsystems| - 1], ip, port, nqn);
    }
  }

  // Discovery of a named subsystem.

  /** Row i has a single subsystem of this name, with a path at the address. */
  ghost predicate Direct(scan: Scan, row: CliDevice, ip: string, port: string, nqn: string) {
    Single(scan, row) && Serves(SubsystemOf(scan, row), ip, port, nqn)
  }

  predicate Owned(scan: Scan, row: CliDevice, nqn: string) {
    Single(scan, row) && SubsystemOf(scan, row).nqn == nqn
  }

  lemma ScanHasNamespaces(scan: Scan, rows: seq<CliDevice>, devices: seq<Device>, at: seq<nat>)
    requires ScanOf(scan, rows, devices, at)
    ensures forall i :: 0 <= i < |devices| ==> devices[i].namespaces != []
  {
    hide LastElement;
    forall j | 0 <= j < |devices|
      ensures devices[j].namespaces != []
    {
      assert Describes(devices[j], SubsystemOf(scan, rows[at[j]]), rows[at[j]]);
    }
  }

  /** Positions of positions. */
  lemma Compose(outer: seq<nat>, n: nat, inner: seq<nat>) returns (at: seq<nat>)
    requires Increasing(outer, n) && Increasing(inner, |outer|)
    ensures |at| == |inner| && Increasing(at, n)
    ensures forall j :: 0 <= j < |inner| ==> at[j] == outer[inner[j]]
  {
    at := seq(|inner|, j requires 0 <= j < |inner| => outer[inner[j]]);
  }

  /** Rows that match directly are found, exactly they, in order. */
  lemma DirectDiscovery(scan: Scan, ip: string, port: string, nqn: string) returns (at: seq<nat>)
    requires nqn != "" && scan.list.Ok?
    requires forall i :: 0 <= i < |scan.list.value| ==> !Ambiguous(scan, scan.list.value[i])
    requires exists i :: 0 <= i < |scan.list.value| && Direct(scan, scan.list.value[i], ip, port, nqn)
    ensures Devices(scan, ip, port, nqn).Ok?
    ensures var rows, devices := scan.list.value, Devices(scan, ip, port, nqn).value;
            && |devices| == |at| && Increasing(at, |rows|)
            && (forall i: nat :: i < |rows| ==> (Direct(scan, rows[i], ip, port, nqn) <==> i in at))
            && (forall j :: 0 <= j < |at| ==>
                  Single(scan, rows[at[j]]) && Describes(devices[j], SubsystemOf(scan, rows[at[j]]), rows[at[j]]))
  {
    var rows := scan.list.value;
    var scanned := ScansSingleRows(scan, rows);
    var devices := ScanRows(scan, rows).value;
    ScanHasNamespaces(scan, rows, devices, scanned);
    var picked := SelectPicks(devices, ip, port, nqn);
    at := Compose(scanned, |rows|, picked);
    DirectIsSelected(scan, rows, devices, scanned, ip, port, nqn);
    DirectIsPicked(scan, rows, devices, scanned, picked, at, ip, port, nqn);
    PickedDescribe(scan, rows, devices, scanned, picked, at, Select(devices, ip, port, nqn));
    hide Describes, Selected, Increasing, ScanRows, Select, Direct, Single, ScanOf, Ambiguous, SubsystemOf;
    var i :| 0 <= i < |rows| && Direct(scan, rows[i], ip, port, nqn);
    assert i in at;
  }

  lemma PickedDescribe(scan: Scan, rows: seq<CliDevice>, devices: seq<Device>, scanned: seq<nat>, picked: seq<nat>, at: seq<nat>, result: seq<Device>)
    requires ScanOf(scan, rows, devices, scanned)
    requires |at| == |picked| == |result|
    requires forall m :: 0 <= m < |picked| ==> picked[m] < |scanned| && at[m] == scanned[picked[m]] && result[m] == devices[picked[m]]
    ensures forall m :: 0 <= m < |at| ==>
              at[m] < |rows| && Single(scan, rows[at[m]]) && Describes(result[m], SubsystemOf(scan, rows[at[m]]), rows[at[m]])
  {
    hide Describes;
  }

  lemma DirectIsPicked(scan: Scan, rows: seq<CliDevice>, devices: seq<Device>, scanned: seq<nat>, picked: seq<nat>, at: seq<nat>,
                       ip: string, port: string, nqn: string)
    requires |devices| == |scanned| && |at| == |picked|
    requires forall j :: 0 <= j < |scanned| ==> scanned[j] < |rows|
    requires forall m :: 0 <= m < |picked| ==> picked[m] < |scanned| && at[m] == scanned[picked[m]]
    requires forall j: nat :: j < |devices| ==> (Selected(devices[j], ip, port, nqn) <==> j in picked)
    requires forall j: nat :: j < |scanned| ==> (Selected(devices[j], ip, port, nqn) <==> Direct(scan, rows[scanned[j]], ip, port, nqn))
    requires forall i: nat :: i < |rows| && Direct(scan, rows[i], ip, port, nqn) ==>
               exists j: nat :: j < |scanned| && scanned[j] == i && Selected(devices[j], ip, port, nqn)
    ensures forall i: nat :: i < |rows| ==> (Direct(scan, rows[i], ip, port, nqn) <==> i in at)
  {
    hide Selected, Direct;
    forall i: nat | i < |rows|
      ensures Direct(scan, rows[i], ip, port, nqn) <==> i in at
    {
      if Direct(scan, rows[i], ip, port, nqn) {
        var j: nat :| j < |scanned| && scanned[j] == i && Selected(devices[j], ip, port, nqn);
        var m: nat :| m < |picked| && picked[m] == j;
        assert at[m] == i;
      }
      if i in at {
        var m: nat :| m < |at| && at[m] == i;
        assert picked[m] in picked && Selected(devices[picked[m]], ip, port, nqn);
      }
    }
  }

  /** Direct rows are the rows of selected devices. */
  lemma DirectIsSelected(scan: Scan, rows: seq<CliDevice>, devices: seq<Device>, at: seq<nat>, ip: string, port: string, nqn: string)
    requires ScanOf(scan, rows, devices, at)
    ensures forall j: nat :: j < |at| ==>
              at[j] < |rows| && (Selected(devices[j], ip, port, nqn) <==> Direct(scan, rows[at[j]], ip, port, nqn))
    ensures forall i: nat :: i < |rows| && Direct(scan, rows[i], ip, port, nqn) ==>
              exists j: nat :: j < |at| && at[j] == i && Selected(devices[j], ip, port, nqn)
  {
    hide Describes, Serves, Selected;
    forall j: nat | j < |at|
      ensures Selected(devices[j], ip, port, nqn) <==> Direct(scan, rows[at[j]], ip, port, nqn)
    {
      DescribedServes(devices[j], SubsystemOf(scan, rows[at[j]]), rows[at[j]], ip, port, nqn);
    }
  }

  /** Without a direct match, a device is found exactly if some row's subsystem has the name and
      the unfiltered listing has the subsystem with a path at the address. There is then one for
      each such subsystem, in order, with all of its controllers over the namespace of the first
      such row. */
  lemma FallbackDiscovery(scan: Scan, ip: string, port: string, nqn: string) returns (via: seq<nat>, owner: nat)
    requires nqn != "" && scan.list.Ok?
    requires forall i :: 0 <= i < |scan.list.value| ==> !Ambiguous(scan, scan.list.value[i])
    requires forall i :: 0 <= i < |scan.list.value| ==> !Direct(scan, scan.list.value[i], ip, port, nqn)
    ensures Devices(scan, ip, port, nqn).Ok? <==>
              && scan.all.Ok?
              && (exists i :: 0 <= i < |scan.list.value| && Owned(scan, scan.list.value[i], nqn))
              && (exists i :: 0 <= i < |scan.all.value| && Serves(scan.all.value[i], ip, port, nqn))
    ensures Devices(scan, ip, port, nqn).Ok? ==>
              var rows, devices := scan.list.value, Devices(scan, ip, port, nqn).value;
              && owner < |rows| && Owned(scan, rows[owner], nqn) && (forall i :: 0 <= i < owner ==> !Owned(scan, rows[i], nqn))
              && |devices| == |via| && Increasing(via, |scan.all.value|)
              && (forall i: nat :: i < |scan.all.value| ==> (Serves(scan.all.value[i], ip, port, nqn) <==> i in via))
              && (forall j :: 0 <= j < |via| ==> Describes(devices[j], scan.all.value[via[j]], rows[owner]))
  {
    hide Serves, Describes, Direct, ScanOf, Owned, Ambiguous, Increasing, Devices, Fallback, Rerouted, Select, OwnerOf;
    var rows := scan.list.value;
    var scanned := ScansSingleRows(scan, rows);
    var devices := ScanRows(scan, rows).value;
    hide ScanRows;
    ScanHasNamespaces(scan, rows, devices, scanned);
    NothingSelected(scan, rows, devices, scanned, ip, port, nqn);
    OnlyFallback(scan, ip, port, nqn);
    var k := FirstOwnedRow(scan, rows, devices, scanned, nqn);
    via, owner := [], 0;
    if OwnerOf(devices, nqn).None? {
      if scan.all.Ok? { NoOwnerNoFallback(devices, scan.all.value, ip, port, nqn); }
    } else if scan.all.Ok? {
      via := FallbackPicks(devices, scan.all.value, ip, port, nqn);
      owner := k;
      RerouteDescribes(scan, rows, devices, scanned, k, nqn);
      ViaServes(scan.all.value, via, ip, port, nqn);
    }
  }

  lemma OnlyFallback(scan: Scan, ip: string, port: string, nqn: string)
    requires nqn != "" && scan.list.Ok? && ScanRows(scan, scan.list.value).Ok?
    requires Select(ScanRows(scan, scan.list.value).value, ip, port, nqn) == []
    ensures scan.all.Err? ==> Devices(scan, ip, port, nqn).Err?
    ensures scan.all.Ok? ==>
              var routed := Fallback(ScanRows(scan, scan.list.value).value, scan.all.value, ip, port, nqn);
              Devices(scan, ip, port, nqn) == if routed != [] then Ok(routed) else Err
  {
    hide ScanRows, Select, Fallback;
  }

  lemma ViaServes(subsystems: seq<Subsystem>, via: seq<nat>, ip: string, port: string, nqn: string)
    requires Increasing(via, |subsystems|)
    requires forall i: nat :: i < |subsystems| ==> (Serves(subsystems[i], ip, port, nqn) <==> i in via)
    ensures via != [] <==> exists i :: 0 <= i < |subsystems| && Serves(subsystems[i], ip, port, nqn)
  {
    hide Serves;
    if via != [] {
      assert via[0] in via && Serves(subsystems[via[0]], ip, port, nqn);
    }
  }

  lemma NothingSelected(scan: Scan, rows: seq<CliDevice>, devices: seq<Device>, at: seq<nat>, ip: string, port: string, nqn: string)
    requires ScanOf(scan, rows, devices, at)
    requires forall i :: 0 <= i < |rows| ==> !Direct(scan, rows[i], ip, port, nqn)
    requires forall i :: 0 <= i < |devices| ==> devices[i].namespaces != []
    ensures Select(devices, ip, port, nqn) == []
  {
    DirectIsSelected(scan, rows, devices, at, ip, port, nqn);
    var picked := SelectPicks(devices, ip, port, nqn);
    hide Direct, Selected, Select, ScanOf;
    assert forall j: nat :: j < |devices| ==> !Selected(devices[j], ip, port, nqn) && j !in picked;
    FirstIsMember(picked);
  }

  lemma FirstIsMember(at: seq<nat>)
    ensures at == [] || at[0] in at
  {}

  /** The row of the owner is the first row of the subsystem. */
  lemma FirstOwnedRow(scan: Scan, rows: seq<CliDevice>, devices: seq<Device>, at: seq<nat>, nqn: string) returns (k: nat)
    requires ScanOf(scan, rows, devices, at)
    requires forall i :: 0 <= i < |devices| ==> devices[i].namespaces != []
    ensures OwnerOf(devices, nqn).Some? <==> exists i :: 0 <= i < |rows| && Owned(scan, rows[i], nqn)
    ensures OwnerOf(devices, nqn).Some? ==>
              && k < |rows| && Owned(scan, rows[k], nqn) && (forall i :: 0 <= i < k ==> !Owned(scan, rows[i], nqn))
              && Describes(OwnerOf(devices, nqn).value, SubsystemOf(scan, rows[k]), rows[k])
  {
    var j := OwnerIsAt(devices, nqn);
    assert forall m :: 0 <= m < |at| ==> devices[m].subsystemNQN == SubsystemOf(scan, rows[at[m]]).nqn;
    hide Describes;
    forall i: nat | i < |rows| && Owned(scan, rows[i], nqn)
      ensures OwnerOf(devices, nqn).Some? && at[j] <= i
    {
      var m: nat :| m < |at| && at[m] == i;
      assert devices[m].subsystemNQN == nqn;
    }
    k := if OwnerOf(devices, nqn).Some? then at[j] else 0;
    if OwnerOf(devices, nqn).Some? {
      assert Owned(scan, rows[k], nqn);
    }
    hide OwnerOf;
  }

  /** The rerouted device of a subsystem shows that subsystem over the owner's row. */
  lemma RerouteDescribes(scan: Scan, rows: seq<CliDevice>, devices: seq<Device>, at: seq<nat>, k: nat, nqn: string)
    requires OwnerOf(devices, nqn).Some? && k < |rows| && Owned(scan, rows[k], nqn)
    requires Describes(OwnerOf(devices, nqn).value, SubsystemOf(scan, rows[k]), rows[k])
    ensures forall sys: Subsystem :: Describes(Rerouted(sys, OwnerOf(devices, nqn).value), sys, rows[k])
  {
    hide OwnerOf, LastElement;
  }

  // Choices.

  predicate AtAddress(c: Controller, ip: string, port: string) {
    ip != "" && port != "" && ParseAddress(c.address) == (ip, port)
  }

  predicate Recorded(c: Controller, name: string) {
    name != "" && c.name == name
  }

  lemma {:induction false} FirstAtIs(cs: seq<Controller>, ip: string, port: string) returns (k: nat)
    requires ip != "" && port != ""
    ensures FirstAt(cs, ip, port).Some? <==> exists i :: 0 <= i < |cs| && AtAddress(cs[i], ip, port)
    ensures FirstAt(cs, ip, port).Some? ==>
              && k < |cs| && FirstAt(cs, ip, port).value == cs[k] && AtAddress(cs[k], ip, port)
              && forall i :: 0 <= i < k ==> !AtAddress(cs[i], ip, port)
  {
    hide ParseAddress;
    k := 0;
    if cs != [] && !AtAddress(cs[0], ip, port) {
      var rest := cs[1..];
      assert forall i :: 0 < i < |cs| ==> cs[i] == rest[i - 1];
      var j := FirstAtIs(rest, ip, port);
      k := j + 1;
      if i :| 0 <= i < |rest| && AtAddress(rest[i], ip, port) {
        assert AtAddress(cs[i + 1], ip, port);
      }
    } else if cs != [] {
      assert AtAddress(cs[0], ip, port);
    }
  }

  lemma {:induction false} FirstNamedIs(cs: seq<Controller>, name: string) returns (k: nat)
    requires name != ""
    ensures FirstNamed(cs, name).Some? <==> exists i :: 0 <= i < |cs| && Recorded(cs[i], name)
    ensures FirstNamed(cs, name).Some? ==>
              && k < |cs| && FirstNamed(cs, name).value == cs[k] && Recorded(cs[k], name)
              && forall i :: 0 <= i < k ==> !Recorded(cs[i], name)
  {
    k := 0;
    if cs != [] && !Recorded(cs[0], name) {
      var rest := cs[1..];
      assert forall i :: 0 < i < |cs| ==> cs[i] == rest[i - 1];
      var j := FirstNamedIs(rest, name);
      k := j + 1;
      if i :| 0 <= i < |rest| && Recorded(rest[i], name) {
        assert Recorded(cs[i + 1], name);
      }
    } else if cs != [] {
      assert Recorded(cs[0], name);
    }
  }

  /** Which controller is chosen: the first at the address if there is one, else the first of the
      recorded name if there is one, else the first. It fails exactly without controllers. */
  lemma ControllerChoice(d: Device, ip: string, port: string, recorded: string) returns (k: nat)
    ensures d.controllers == [] ==> SelectController(d, ip, port, recorded) == Err
    ensures d.controllers != [] ==> k < |d.controllers| && SelectController(d, ip, port, recorded) == Ok(d.controllers[k])
    ensures (exists i :: 0 <= i < |d.controllers| && AtAddress(d.controllers[i], ip, port)) ==>
              AtAddress(d.controllers[k], ip, port) && forall i :: 0 <= i < k ==> !AtAddress(d.controllers[i], ip, port)
    ensures (exists i :: 0 <= i < |d.controllers| && Recorded(d.controllers[i], recorded)) ==>
              (exists i :: 0 <= i < |d.controllers| && AtAddress(d.controllers[i], ip, port)) ||
              (Recorded(d.controllers[k], recorded) && forall i :: 0 <= i < k ==> !Recorded(d.controllers[i], recorded))
    ensures (forall i :: 0 <= i < |d.controllers| ==>
               !AtAddress(d.controllers[i], ip, port) && !Recorded(d.controllers[i], recorded)) ==> k == 0
  {
    hide ParseAddress, FirstAt, FirstNamed;
    var byAddress := None;
    var a, n := 0, 0;
    if ip != "" && port != "" {
      a := FirstAtIs(d.controllers, ip, port);
      byAddress := FirstAt(d.controllers, ip, port);
    }
    var byName := None;
    if recorded != "" {
      n := FirstNamedIs(d.controllers, recorded);
      byName := FirstNamed(d.controllers, recorded);
    }
    k := if byAddress.Some? then a else if byName.Some? then n else 0;
  }

  predicate RouteAt(subsystems: seq<Subsystem>, i: nat, j: nat, nqn: string, ip: string, port: string) {
    i < |subsystems| && subsystems[i].nqn == nqn && j < |subsystems[i].paths| &&
    ParseAddress(subsystems[i].paths[j].address) == (ip, port)
  }

  lemma {:induction false} FirstPathAtIs(paths: seq<Path>, ip: string, port: string) returns (k: nat)
    ensures FirstPathAt(paths, ip, port).Some? ==>
              && k < |paths| && FirstPathAt(paths, ip, port).value == paths[k] && ParseAddress(paths[k].address) == (ip, port)
              && forall i :: 0 <= i < k ==> ParseAddress(paths[i].address) != (ip, port)
    ensures FirstPathAt(paths, ip, port).None? ==> forall i :: 0 <= i < |paths| ==> ParseAddress(paths[i].address) != (ip, port)
  {
    hide ParseAddress;
    k := 0;
    if paths != [] && ParseAddress(paths[0].address) != (ip, port) {
      var rest := paths[1..];
      assert forall i :: 0 < i < |paths| ==> paths[i] == rest[i - 1];
      var j := FirstPathAtIs(rest, ip, port);
      k := j + 1;
    }
  }

  /** Which path is disconnected or verified: the first of the first subsystem, in the order of
      the listing, with this name and a path at exactly this address. */
  lemma {:induction false} RouteChoice(subsystems: seq<Subsystem>, nqn: string, ip: string, port: string) returns (i: nat, j: nat)
    ensures FirstRoute(subsystems, nqn, ip, port).None? <==> forall m: nat, n: nat :: !RouteAt(subsystems, m, n, nqn, ip, port)
    ensures FirstRoute(subsystems, nqn, ip, port).Some? ==>
              && RouteAt(subsystems, i, j, nqn, ip, port) && FirstRoute(subsystems, nqn, ip, port).value == subsystems[i].paths[j]
              && (forall m: nat, n: nat :: RouteAt(subsystems, m, n, nqn, ip, port) ==> i < m || (i == m && j <= n))
  {
    hide ParseAddress, FirstPathAt;
    i, j := 0, 0;
    if subsystems != [] {
      var k := FirstPathAtIs(subsystems[0].paths, ip, port);
      if subsystems[0].nqn == nqn && FirstPathAt(subsystems[0].paths, ip, port).Some? {
        j := k;
        assert RouteAt(subsystems, 0, k, nqn, ip, port);
      } else {
        var rest := subsystems[1..];
        var a, b := RouteChoice(rest, nqn, ip, port);
        i, j := a + 1, b;
        forall m: nat, n: nat
          ensures RouteAt(subsystems, m, n, nqn, ip, port) <==> m > 0 && RouteAt(rest, m - 1, n, nqn, ip, port)
        {}
        if FirstRoute(rest, nqn, ip, port).Some? {
          assert RouteAt(rest, a, b, nqn, ip, port);
          assert RouteAt(subsystems, i, j, nqn, ip, port);
        }
      }
    }
  }
}
