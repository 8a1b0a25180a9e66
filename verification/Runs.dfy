/** Exactly when run succeeds, and what it leaves when it does. */
module Runs {
  import opened Text
  import opened Network
  import opened Lifecycle
  import opened LedgerRuns
  import opened Redirects

  /** The rules the record of a container stands for, whether they are loaded or not: for any destination in host mode,
      and for its own address in external mode as far as that is known. */
  function RulesOnRecord(m: Meta): seq<Rule> {
    Rules(if m.mode.ExternalMode? && m.net.Some? && m.net.value.ip != "" then Some(m.net.value.ip) else None,
          if m.net.Some? then m.net.value.ip else "", m.ports)
  }

  /** Some packet would be taken by a rule of both. */
  ghost predicate Collide(a: seq<Rule>, b: seq<Rule>) {
    exists i, j, p :: 0 <= i < |a| && 0 <= j < |b| && Matches(a[i], p) && Matches(b[j], p)
  }

  lemma CollideExactly(a: seq<Rule>, b: seq<Rule>)
    ensures Collide(a, b) <==> exists i, j :: 0 <= i < |a| && 0 <= j < |b| && Overlap(a[i], b[j])
  {
    forall i, j | 0 <= i < |a| && 0 <= j < |b|
      ensures Overlap(a[i], b[j]) <==> exists p :: Matches(a[i], p) && Matches(b[j], p)
    {
      OverlapMeaning(a[i], b[j]);
    }
  }

  lemma SharingCollides(destination: Option<string>, target: string, ports: seq<PortMapping>, m: Meta)
    requires destination != Some("")
    ensures Collide(Rules(destination, target, ports), RulesOnRecord(m))
            <==> !Elsewhere(m, destination) && SharesPort(ports, m.ports)
  {
    var a, b := Rules(destination, target, ports), RulesOnRecord(m);
    CollideExactly(a, b);
    if !Elsewhere(m, destination) && SharesPort(ports, m.ports) {
      var i, j :| 0 <= i < |ports| && 0 <= j < |m.ports| && ports[i].hostPort == m.ports[j].hostPort
                  && ports[i].protocol == m.ports[j].protocol;
      assert Overlap(a[i], b[j]);
    }
    if i, j :| 0 <= i < |a| && 0 <= j < |b| && Overlap(a[i], b[j]) {
      assert ports[i].hostPort == m.ports[j].hostPort && ports[i].protocol == m.ports[j].protocol;
    }
  }

  /** The conflict check refuses a request if and only if some packet would be taken by one of its rules and by one that
      the record of another container with an anchor stands for, loaded or not. */
  lemma ConflictExactly(disk: Disk, name: string, destination: Option<string>, target: string, ports: seq<PortMapping>)
    requires destination != Some("")
    ensures Conflict(disk, name, destination, ports)
            <==> exists n :: n in disk && n != name && disk[n].pfAnchor.Some?
                             && Collide(Rules(destination, target, ports), RulesOnRecord(disk[n]))
  {
    forall n | n in disk
      ensures Collide(Rules(destination, target, ports), RulesOnRecord(disk[n]))
              <==> !Elsewhere(disk[n], destination) && SharesPort(ports, disk[n].ports)
    {
      SharingCollides(destination, target, ports, disk[n]);
    }
  }

  predicate HasAddress(ifaces: Interfaces, iface: string, ip: string) {
    iface in ifaces && ip in ifaces[iface].addresses
  }

  /** Some record says that Macker made the host bridge. */
  predicate Claimed(disk: Disk) {
    exists n :: n in disk && disk[n].net.Some? && disk[n].net.value.hostInterface == "bridge88"
                && disk[n].net.value.hostOwned
  }

  /** The host bridge is there with its address, or can be made. */
  predicate BridgeReady(ifaces: Interfaces, c: RunCalls) {
    && c.inspectHost
    && if "bridge88" in ifaces then c.readAddress && c.scanOwned && HasAddress(ifaces, "bridge88", "172.31.88.1")
       else c.createHost
  }

  /** Some record names the interface, whoever made it. */
  predicate OnRecord(disk: Disk, s: string) {
    exists n :: n in disk && disk[n].net.Some? && disk[n].net.value.iface == s
  }

  predicate Taken(w: World, i: nat) {
    OnRecord(w.disk, SlotName(i)) || SlotName(i) in w.host.ifaces
  }

  /** Slot `i` is the first that no record and no interface has, and no look at an interface fails up to there. */
  ghost predicate FirstFree(w: World, i: nat, c: RunCalls) {
    && 1 <= i <= 167 && !Taken(w, i) && (forall j :: 1 <= j < i ==> Taken(w, j))
    && !(1 <= c.bad <= i && !OnRecord(w.disk, SlotName(c.bad)))
  }

  lemma UsedExactly(disk: Disk, i: nat)
    ensures SlotName(i) in UsedInterfaces(disk) <==> OnRecord(disk, SlotName(i))
  {
    assert |SlotName(i)| >= |HOST_BRIDGE|;
  }

  /** What a request for an external network must find. */
  predicate ExternalReady(ifaces: Interfaces, r: Request, c: RunCalls)
    requires r.ExternalRequest?
  {
    && c.inspectExternal && (r.hostInterface == "" <==> r.hostIP == "") && r.iface != "" && r.ip != ""
    && HasAddress(ifaces, r.iface, r.ip) && (r.hostInterface != "" ==> HasAddress(ifaces, r.hostInterface, r.hostIP))
  }

  lemma ScanFindsFirst(used: set<string>, existing: set<string>, index: nat, bad: nat, i: nat)
    requires 1 <= index <= i <= LIMIT && SlotName(i) !in used && SlotName(i) !in existing
    requires forall j :: index <= j < i ==> SlotName(j) in used || SlotName(j) in existing
    ensures ScanSlots(used, existing, index, bad)
            == if index <= bad <= i && SlotName(bad) !in used then InspectFailed else Found(i)
    decreases i - index
  {
    if index < i && index != bad {
      ScanFindsFirst(used, existing, index + 1, bad, i);
    } else if index < i && SlotName(index) in used {
      ScanFindsFirst(used, existing, index + 1, bad, i);
    }
  }

  /** The bridge and slot `i`, added to what there was, and on record with who made them. */
  ghost predicate SetUpWith(w: World, setup: Setup, i: nat) {
    var before := w.host.ifaces;
    && setup.config == Some(NetConfig(hostInterface := "bridge88", hostIP := "172.31.88.1", iface := SlotName(i),
                                      ip := SlotIP(i), hostOwned := "bridge88" !in before || Claimed(w.disk),
                                      ifaceOwned := true))
    && setup.ifaces == WithBridge(before)[SlotName(i) := Interface({SlotIP(i)}, true)]
  }

  function WithBridge(before: Interfaces): Interfaces {
    if "bridge88" in before then before else before["bridge88" := Interface({"172.31.88.1"}, true)]
  }

  lemma ScanExactly(w: World, existing: set<string>, c: RunCalls)
    requires forall j: nat :: Taken(w, j) <==> SlotName(j) in UsedInterfaces(w.disk) || SlotName(j) in existing
    ensures var scan := ScanSlots(UsedInterfaces(w.disk), existing, 1, c.bad);
            && (scan.Found? ==> FirstFree(w, scan.index, c))
            && forall i :: FirstFree(w, i, c) ==> scan == Found(i)
  {
    var used := UsedInterfaces(w.disk);
    var scan := ScanSlots(used, existing, 1, c.bad);
    UsedExactly(w.disk, c.bad);
    if scan.Found? {
      ScanFindsFirst(used, existing, 1, c.bad, scan.index);
      assert !Taken(w, scan.index);
    }
    forall i | FirstFree(w, i, c)
      ensures scan == Found(i)
    {
      assert !Taken(w, i);
      ScanFindsFirst(used, existing, 1, c.bad, i);
    }
  }

  lemma BridgeExactly(w: World, c: RunCalls)
    ensures var bridge := EnsureBridge(w.host.ifaces, w.disk, c);
            && (bridge.ok <==> BridgeReady(w.host.ifaces, c))
            && (bridge.ok ==>
                  && bridge.owned == ("bridge88" !in w.host.ifaces || Claimed(w.disk))
                  && bridge.ifaces == WithBridge(w.host.ifaces))
            && forall j: nat ::
                 Taken(w, j) <==> SlotName(j) in UsedInterfaces(w.disk) || SlotName(j) in bridge.ifaces
  {
    forall j: nat
      ensures SlotName(j) in EnsureBridge(w.host.ifaces, w.disk, c).ifaces <==> SlotName(j) in w.host.ifaces
      ensures SlotName(j) in UsedInterfaces(w.disk) <==> OnRecord(w.disk, SlotName(j))
    {
      SlotExistence(w, c, j);
      UsedExactly(w.disk, j);
    }
  }

  /** A network is set up for a host-mode request if and only if the bridge is ready and some slot is the first free
      one; then it is that slot, made new beside what there was, with the bridge. */
  lemma SetupSucceedsExactly(w: World, c: RunCalls)
    ensures var setup := SetupNetwork(w.host.ifaces, w.disk, c);
            && (setup.config.Some? <==>
                  BridgeReady(w.host.ifaces, c) && c.scanUsed && c.createSlot && exists i :: FirstFree(w, i, c))
            && (forall i :: setup.config.Some? && FirstFree(w, i, c) ==> SetUpWith(w, setup, i))
            && (setup.config.None? ==> setup.ifaces == w.host.ifaces)
  {
    BridgeExactly(w, c);
    ScanExactly(w, EnsureBridge(w.host.ifaces, w.disk, c).ifaces.Keys, c);
  }

  /** The network a request asks for can be had. */
  ghost predicate NetworkReady(w: World, r: Request, c: RunCalls) {
    if r.HostRequest? then
      BridgeReady(w.host.ifaces, c) && c.scanUsed && c.createSlot && exists i :: FirstFree(w, i, c)
    else ExternalReady(w.host.ifaces, r, c)
  }

  /** No two ports of the request are the same host port and protocol, no container bears its name, and none of its
      rules would take a packet that a rule on another container's record takes. */
  ghost predicate IsFree(w: World, r: Request) {
    && (forall i, j :: 0 <= i < j < |r.ports| ==>
          r.ports[i].hostPort != r.ports[j].hostPort || r.ports[i].protocol != r.ports[j].protocol)
    && r.name !in w.disk
    && forall n :: n in w.disk && w.disk[n].pfAnchor.Some? ==>
         !Collide(Rules(Destination(r), "", r.ports), RulesOnRecord(w.disk[n]))
  }

  /** The network a container is given, as it goes on record. */
  ghost predicate GivenNetwork(w: World, r: Request, c: RunCalls, config: NetConfig, ifaces: Interfaces) {
    match r
    case HostRequest(_, _, _, _) => exists i :: FirstFree(w, i, c) && SetUpWith(w, Setup(ifaces, Some(config)), i)
    case ExternalRequest(_, _, _, _, iface, ip, hostInterface, hostIP) =>
      && config == NetConfig(hostInterface := hostInterface, hostIP := hostIP, iface := iface, ip := ip,
                             hostOwned := false, ifaceOwned := false)
      && ifaces == w.host.ifaces
  }

  lemma SetupForExactly(w: World, r: Request, c: RunCalls)
    ensures var setup := SetupFor(w, r, c);
            && (setup.config.Some? <==> NetworkReady(w, r, c))
            && (setup.config.Some? ==> GivenNetwork(w, r, c, setup.config.value, setup.ifaces))
  {
    if r.HostRequest? {
      SetupSucceedsExactly(w, c);
    }
  }

  lemma AcceptableExactly(w: World, r: Request)
    requires Destination(r) != Some("")
    ensures Acceptable(w, r) <==> IsFree(w, r)
  {
    ConflictExactly(w.disk, r.name, Destination(r), "", r.ports);
  }

  /** Run succeeds if and only if the request is free of clashes, its network can be had and every later call goes well.
      Then exactly one record is new, and says so. */
  lemma RunSucceedsExactly(w: World, r: Request, c: RunCalls)
    ensures Run(w, r, c).ok <==>
              && IsFree(w, r) && NetworkReady(w, r, c)
              && c.prepare && (r.ports != [] ==> c.install) && c.launch && c.record
    ensures Run(w, r, c).ok ==>
              var w' := Run(w, r, c).world;
              && r.name in w'.disk && w'.disk[r.name].net.Some?
              && GivenNetwork(w, r, c, w'.disk[r.name].net.value, w'.host.ifaces)
              && w'.disk == w.disk[r.name := NewRecord(r, w'.disk[r.name].net, c)]
              && w'.procs == w.procs[r.name := Processes(launcher := r.detach, workload := Running, execs := [],
                                                         record := false)]
              && w'.foreground == if r.detach then w.foreground else w.foreground[r.name := w'.disk[r.name]]
  {
    SetupForExactly(w, r, c);
    if Destination(r) != Some("") { AcceptableExactly(w, r); }
    RunStarts(w, r, c);
    if Run(w, r, c).ok {
      var setup := SetupFor(w, r, c);
      StartedExactly(w, r, Installed(w.host.(ifaces := setup.ifaces), r, setup.config.value, c), setup.config.value, c);
    }
  }

  lemma RunStarts(w: World, r: Request, c: RunCalls)
    ensures var setup := SetupFor(w, r, c);
            && (Run(w, r, c).ok <==>
                  && Acceptable(w, r) && setup.config.Some?
                  && c.prepare && (r.ports != [] ==> c.install) && c.launch && c.record)
            && (Run(w, r, c).ok ==>
                  var h := Installed(w.host.(ifaces := setup.ifaces), r, setup.config.value, c);
                  Run(w, r, c).world == Started(w, r, h, setup.config.value, c))
  {
  }

  lemma StartedExactly(w: World, r: Request, h: Host, config: NetConfig, c: RunCalls)
    ensures var w' := Started(w, r, h, config, c);
            && w'.host == h && w'.disk == w.disk[r.name := NewRecord(r, Some(config), c)]
            && w'.procs == w.procs[r.name := Processes(launcher := r.detach, workload := Running, execs := [],
                                                       record := false)]
            && w'.foreground == if r.detach then w.foreground else w.foreground[r.name := w'.disk[r.name]]
  {
  }

  /** What the record of a container says when it has just been started. */
  function NewRecord(r: Request, net: Option<NetConfig>, c: RunCalls): Meta {
    Meta(mode := if r.HostRequest? then HostMode else ExternalMode, ports := r.ports,
         pfAnchor := if r.ports == [] then None else Some(AnchorFor(r.name)),
         pfToken := if r.ports == [] then None else Some(c.token), net := net, autoRemove := r.autoRemove,
         pid := r.detach, launcherStarted := r.detach && c.startTime, paused := false, finished := false,
         stopped := false)
  }
}
