/** The commands as they are written: over fields they update step by step. Each method is tied to the function of
    `Lifecycle` that says what it does; what holds of every run of those functions is proved in the modules beside. */
module Machines {
  import opened Text
  import opened Network
  import opened Lifecycle
  import opened Ledger
  import opened LedgerRuns
  import opened Ports

  /** signalProcessTargets. */
  method SignalTargets(targets: seq<Process>, signal: Signal, undelivered: set<nat>)
      returns (after: seq<Process>, ok: bool)
    ensures after == Signalled(targets, signal, undelivered)
    ensures ok == AllSignalled(targets, undelivered)
  {
    after, ok := targets, true;
    for i := 0 to |targets|
      invariant |after| == |targets|
      invariant forall j :: 0 <= j < i ==> after[j] == if j in undelivered then targets[j]
               else Deliver(targets[j], signal)
      invariant forall j :: i <= j < |targets| ==> after[j] == targets[j]
      invariant ok == forall j :: 0 <= j < i && j in undelivered ==> targets[j].Dead?
    {
      if targets[i] != Dead {
        if i in undelivered {
          ok := false;
        } else {
          after := after[i := Deliver(targets[i], signal)];
        }
      }
    }
  }

  /** signalContainerProcessGroups: the workload and the tracked exec children, once the workload could be named. */
  method SignalProcessGroups(p: Processes, signal: Signal, resolve: bool, undelivered: set<nat>)
    returns (after: Processes, ok: bool)
    ensures SignalOut(after, ok) == SignalGroups(p, signal, resolve, undelivered)
  {
    if !resolve { return p, false; }
    var targets := Targets(p);
    var signalled;
    signalled, ok := SignalTargets(targets, signal, undelivered);
    after := WithTargets(p, signalled);
  }

  /** mackerNetworkInterfacesInUse. */
  method InterfacesInUse(disk: Disk) returns (used: set<string>)
    ensures used == UsedInterfaces(disk)
  {
    used := {};
    var rest := disk.Keys;
    while rest != {}
      invariant rest <= disk.Keys
      invariant used == set n | n in disk && n !in rest && disk[n].net.Some?
               && disk[n].net.value.iface != "" :: disk[n].net.value.iface
      decreases |rest|
    {
      var n :| n in rest;
      rest := rest - {n};
      if disk[n].net.Some? && disk[n].net.value.iface != "" {
        used := used + {disk[n].net.value.iface};
      }
    }
  }

  /** mackerHostBridgeOwned. */
  method HostBridgeOwned(disk: Disk) returns (owned: bool)
    ensures owned == BridgeOwned(disk)
  {
    var rest := disk.Keys;
    while rest != {}
      invariant rest <= disk.Keys
      invariant forall n :: n in disk && n !in rest ==> !(RefersTo(disk[n], HOST_BRIDGE) && disk[n].net.value.hostOwned)
      decreases |rest|
    {
      var n :| n in rest;
      rest := rest - {n};
      if disk[n].net.Some? && disk[n].net.value.hostInterface == HOST_BRIDGE && disk[n].net.value.hostOwned {
        return true;
      }
    }
    owned := false;
  }

  /** mackerHostBridgeInUse. */
  method HostBridgeInUse(disk: Disk, exclude: string, hostInterface: string) returns (used: bool)
    ensures used == InUse(disk, exclude, hostInterface)
  {
    var rest := disk.Keys - {exclude};
    while rest != {}
      invariant rest <= disk.Keys - {exclude}
      invariant forall n :: n in disk && n != exclude && n !in rest ==> !RefersTo(disk[n], hostInterface)
      decreases |rest|
    {
      var n :| n in rest;
      rest := rest - {n};
      if disk[n].net.Some? && disk[n].net.value.hostInterface == hostInterface { return true; }
    }
    used := false;
  }

  /** The duplicate check of run. */
  method Duplicated(ports: seq<PortMapping>) returns (duplicate: bool)
    ensures duplicate == !DistinctPorts(ports)
  {
    var seen: set<(uint16, string)> := {};
    for i := 0 to |ports|
      invariant seen == set j | 0 <= j < i :: (ports[j].hostPort, ports[j].protocol)
      invariant DistinctPorts(ports[..i])
    {
      if (ports[i].hostPort, ports[i].protocol) in seen { return true; }
      seen := seen + {(ports[i].hostPort, ports[i].protocol)};
    }
    assert ports[..|ports|] == ports;
    duplicate := false;
  }

  /** checkPublishedPortConflictsForTarget. */
  method PortConflict(disk: Disk, name: string, destination: Option<string>, ports: seq<PortMapping>)
      returns (found: bool)
    ensures found == Conflict(disk, name, destination, ports)
  {
    var requested: set<(uint16, string)> := set i | 0 <= i < |ports| :: (ports[i].hostPort, ports[i].protocol);
    var rest := disk.Keys;
    while rest != {}
      invariant rest <= disk.Keys
      invariant forall n ::
                  n in disk && n !in rest && n != name && disk[n].pfAnchor.Some? && !Elsewhere(disk[n], destination) ==>
                    !SharesPort(ports, disk[n].ports)
      decreases |rest|
    {
      var n :| n in rest;
      rest := rest - {n};
      if n != name && disk[n].pfAnchor.Some? && !Elsewhere(disk[n], destination) {
        var others := disk[n].ports;
        for j := 0 to |others|
          invariant forall k :: 0 <= k < j ==> (others[k].hostPort, others[k].protocol) !in requested
        {
          if (others[j].hostPort, others[j].protocol) in requested { return true; }
        }
      }
    }
    found := false;
  }

  lemma PublishesItsPorts(w: World, r: Request, c: RunCalls)
    requires Run(w, r, c).ok
    ensures r.name in Run(w, r, c).world.disk && Run(w, r, c).world.disk[r.name].ports == r.ports
  {
  }

  class Machine {
    var disk: Disk
    var ifaces: Interfaces
    var anchors: map<string, seq<Rule>>
    var tokens: set<nat>
    var procs: map<string, Processes>
    var foreground: Disk

    function Resources(): Host
      reads this
    {
      Host(ifaces, anchors, tokens)
    }

    function State(): World
      reads this
    {
      World(disk, Resources(), procs, foreground)
    }

    constructor (found: Interfaces)
      requires forall s :: s in found ==> !found[s].mine
      ensures Initial(State()) && ifaces == found
    {
      disk, ifaces, anchors, tokens, procs, foreground := map[], found, map[], {}, map[], map[];
    }

    /** cleanupPFPortMappings. */
    method CleanupPFMappings(m: Meta, c: CleanupCalls) returns (ok: bool)
      modifies this`anchors, this`tokens
      ensures HostOut(Resources(), ok) == CleanupPF(old(Resources()), m, c)
    {
      ok := true;
      if m.pfAnchor.Some? {
        if c.flush { anchors := anchors - {m.pfAnchor.value}; } else { ok := false; }
      }
      if m.pfToken.Some? {
        if c.release { tokens := tokens - {m.pfToken.value}; } else { ok := false; }
      }
    }

    /** destroyMackerInterface. */
    method DestroyInterface(name: string, inspect: bool, destroy: bool) returns (ok: bool)
      modifies this`ifaces
      ensures HostOut(Resources(), ok) == Destroy(old(Resources()), name, inspect, destroy)
    {
      if !inspect { return false; }
      if name !in ifaces { return true; }
      if !destroy { return false; }
      ifaces := ifaces - {name};
      ok := true;
    }

    /** cleanupMackerNetwork. */
    method CleanupMackerNetwork(name: string, config: NetConfig, c: CleanupCalls) returns (ok: bool)
      modifies this`ifaces
      ensures HostOut(Resources(), ok) == CleanupNetwork(old(Resources()), disk, name, config, c)
    {
      ok := true;
      if config.ifaceOwned && config.iface != "" {
        ok := DestroyInterface(config.iface, c.inspectIface, c.destroyIface);
      }
      if config.hostOwned && config.hostInterface != "" {
        if !c.scan {
          ok := false;
        } else {
          var inUse := HostBridgeInUse(disk, name, config.hostInterface);
          if !inUse {
            var gone := DestroyInterface(config.hostInterface, c.inspectHost, c.destroyHost);
            ok := ok && gone;
          }
        }
      }
    }

    /** cleanupContainerResources: the metadata is updated in place: it comes back with the released fields cleared. */
    method CleanupContainerResources(name: string, m: Meta, c: CleanupCalls) returns (left: Meta, ok: bool)
      modifies this`ifaces, this`anchors, this`tokens
      ensures Cleaned(Resources(), left, ok) == Cleanup(old(Resources()), disk, name, m, c)
    {
      left, ok := ReleasePF(m, c);
      if m.net.Some? {
        var released := CleanupMackerNetwork(name, m.net.value, c);
        left := if released then left.(net := None) else left;
        ok := ok && released;
      }
    }

    /** The first half of cleanupContainerResources. */
    method ReleasePF(m: Meta, c: CleanupCalls) returns (left: Meta, ok: bool)
      modifies this`anchors, this`tokens
      ensures HostOut(Resources(), ok) == CleanupPF(old(Resources()), m, c) && left == Cleared(m, ok, m.net.None?)
    {
      left, ok := m, true;
      if m.pfAnchor.Some? || m.pfToken.Some? {
        ok := CleanupPFMappings(m, c);
        if ok { left := left.(pfAnchor := None, pfToken := None); }
      }
    }

    /** setupMackerNetwork, with ensureMackerHostBridge and the undoing of a bridge just made. */
    method SetupMackerNetwork(c: RunCalls) returns (config: Option<NetConfig>)
      modifies this`ifaces
      ensures Setup(ifaces, config) == SetupNetwork(old(ifaces), disk, c)
    {
      config := None;
      var owned, created := false, false;
      if !c.inspectHost { return; }
      if HOST_BRIDGE in ifaces {
        if !c.readAddress || HOST_IP !in ifaces[HOST_BRIDGE].addresses || !c.scanOwned { return; }
        owned := HostBridgeOwned(disk);
      } else {
        if !c.createHost { return; }
        ifaces := ifaces[HOST_BRIDGE := Interface({HOST_IP}, true)];
        owned, created := true, true;
      }
      ghost var bridge := EnsureBridge(old(ifaces), disk, c);
      assert bridge == Bridge(ifaces, owned, true);
      if c.scanUsed {
        var used := InterfacesInUse(disk);
        var index := 1;
        while index <= LIMIT
          invariant 1 <= index <= LIMIT + 1
          invariant ScanSlots(used, ifaces.Keys, index, c.bad) == ScanSlots(used, ifaces.Keys, 1, c.bad)
          invariant ifaces == bridge.ifaces
        {
          if SlotName(index) !in used {
            if index == c.bad { break; }
            if SlotName(index) !in ifaces {
              if !c.createSlot { break; }
              ifaces := ifaces[SlotName(index) := Interface({SlotIP(index)}, true)];
              return Some(NetConfig(HOST_BRIDGE, HOST_IP, SlotName(index), SlotIP(index), owned, true));
            }
          }
          index := index + 1;
        }
      }
      if created { ifaces := ifaces - {HOST_BRIDGE}; }
    }

    /** setupExternalMackerNetwork: both addresses are looked for, nothing is created. */
    method SetupExternalNetwork(r: Request, c: RunCalls) returns (config: Option<NetConfig>)
      requires r.ExternalRequest?
      ensures Setup(ifaces, config) == SetupExternal(ifaces, r, c)
    {
      if (r.hostInterface == "") != (r.hostIP == "") || r.iface == "" || r.ip == ""
        || !c.inspectExternal { return None; }
      if r.iface !in ifaces || r.ip !in ifaces[r.iface].addresses { return None; }
      var hostInterface, hostIP := "", "";
      if r.hostInterface != "" {
        if r.hostInterface !in ifaces || r.hostIP !in ifaces[r.hostInterface].addresses { return None; }
        hostInterface, hostIP := r.hostInterface, r.hostIP;
      }
      config := Some(NetConfig(hostInterface, hostIP, r.iface, r.ip, false, false));
    }

    /** removeContainer. */
    method RemoveContainer(name: string, succeeds: bool) returns (ok: bool)
      modifies this`disk
      ensures Out(State(), ok) == Remove(old(State()), name, succeeds)
    {
      if succeeds { disk := disk - {name}; }
      ok := succeeds;
    }

    /** commandPause. */
    method CommandPause(name: string, c: Calls) returns (ok: bool)
      modifies this`disk, this`procs
      ensures Out(State(), ok) == Pause(old(State()), name, c)
    {
      if name !in disk || !c.refresh { return false; }
      var p := ProcsOf(State(), name);
      var m := Refreshed(disk[name], p);
      if RefreshChanges(disk[name], p) {
        if !c.firstWrite { return false; }
        disk := disk[name := m];
      }
      if !c.status || StatusOf(m, p.launcher) != IsRunning || !Identified(m, p, c.identity) { return false; }
      var sent;
      p, sent := SignalProcessGroups(p, StopSignal, c.resolve, c.undelivered);
      procs := procs[name := p];
      if sent && c.write {
        disk := disk[name := m.(paused := true)];
        return true;
      }
      var resumed;
      p, resumed := SignalProcessGroups(p, ContinueSignal, c.resolve, {});
      procs := procs[name := p];
      ok := false;
    }

    /** commandUnpause. */
    method CommandUnpause(name: string, c: Calls) returns (ok: bool)
      modifies this`disk, this`procs
      ensures Out(State(), ok) == Unpause(old(State()), name, c)
    {
      if name !in disk || !c.refresh { return false; }
      var p := ProcsOf(State(), name);
      var m := Refreshed(disk[name], p);
      if RefreshChanges(disk[name], p) {
        if !c.firstWrite { return false; }
        disk := disk[name := m];
      }
      if !c.status || StatusOf(m, p.launcher) != IsPaused || !Identified(m, p, c.identity) { return false; }
      var sent;
      p, sent := SignalProcessGroups(p, ContinueSignal, c.resolve, c.undelivered);
      procs := procs[name := p];
      if sent && c.write {
        disk := disk[name := m.(paused := false)];
        return true;
      }
      var suspended;
      p, suspended := SignalProcessGroups(p, StopSignal, c.resolve, {});
      procs := procs[name := p];
      ok := false;
    }

    /** commandStop. */
    method CommandStop(name: string, c: Calls) returns (ok: bool)
      modifies this
      ensures Out(State(), ok) == Stop(old(State()), name, c)
    {
      if name !in disk || !c.refresh { return false; }
      var p := ProcsOf(State(), name);
      var m := Refreshed(disk[name], p);
      if m.pid && m.launcherStarted && !(p.launcher && c.identity) { return false; }
      ok := StopRefreshed(name, m, c);
    }

    /** commandStop once the launcher has been validated. */
    method StopRefreshed(name: string, m: Meta, c: Calls) returns (ok: bool)
      modifies this
      ensures Out(State(), ok) == StopBegun(old(State()), name, m, c)
    {
      var p := ProcsOf(State(), name);
      if m.paused {
        var sent;
        p, sent := SignalProcessGroups(p, ContinueSignal, c.resolve, c.undelivered);
        procs := procs[name := p];
        if !sent { return false; }
      }
      p := StopExecs(p, c.stopExec, c.execsKilled);
      procs := procs[name := p];
      assert procs == old(State()).procs[name := p];
      if !c.stopExec { return false; }
      ok := StopUnpaused(name, m.(paused := false), c);
    }

    /** The rest of commandStop. */
    method StopUnpaused(name: string, m: Meta, c: Calls) returns (ok: bool)
      modifies this
      ensures Out(State(), ok) == StopResumed(old(State()), name, m, c)
    {
      var p := ProcsOf(State(), name);
      if !m.pid {
        ok := StopWithoutLauncher(name, m, c);
        return;
      }
      if !c.alive || (p.launcher && !c.terminate) { return false; }
      p := Terminated(p, c);
      procs := procs[name := p];
      ok := StopTerminated(name, m, p, c);
    }

    /** commandStop without a launcher. */
    method StopWithoutLauncher(name: string, metadata: Meta, c: Calls) returns (ok: bool)
      modifies this
      ensures Out(State(), ok) == StopAgain(old(State()), name, metadata, c)
    {
      var m := metadata;
      if !m.stopped { return false; }
      m, ok := CleanupContainerResources(name, m, c.cleanup);
      if !ok || !c.write { return false; }
      disk := disk[name := m];
      if !m.autoRemove { return false; }
      ok := RemoveContainer(name, c.remove);
    }

    /** commandStop once the launcher is gone. */
    method StopTerminated(name: string, metadata: Meta, p: Processes, c: Calls) returns (ok: bool)
      modifies this
      ensures Out(State(), ok) == StopDetached(old(State()), name, metadata, p, c)
    {
      var m;
      m, ok := CleanupContainerResources(name, metadata, c.cleanup);
      ghost var done := Cleanup(old(Resources()), disk, name, metadata, c.cleanup);
      assert m == done.meta && m.autoRemove == metadata.autoRemove;
      if !ok || !c.refreshAgain || !c.write { return false; }
      m := StoppedMeta(Refreshed(m, p));
      disk := disk[name := m];
      assert State() == WithMeta(old(State()).(host := done.host), name, StoppedMeta(Refreshed(done.meta, p)));
      if metadata.autoRemove { ok := RemoveContainer(name, c.remove); }
    }

    /** commandRM. */
    method CommandRM(name: string, force: bool, c: Calls) returns (ok: bool)
      modifies this
      ensures Out(State(), ok) == Rm(old(State()), name, force, c)
    {
      if name !in disk || !c.status { return false; }
      var m, p := disk[name], ProcsOf(State(), name);
      if Live(StatusOf(m, p.launcher)) {
        if !force { return false; }
        ok := CommandStop(name, c);
        if !ok || m.autoRemove { return; }
      } else {
        procs := procs[name := StopExecs(p, c.stopExec, c.execsKilled)];
        if !c.stopExec { return false; }
        m, ok := CleanupContainerResources(name, m, c.cleanup);
        if !ok { return; }
      }
      ok := RemoveContainer(name, c.remove);
    }

    /** One turn of the loop of commandPS. */
    method PSContainer(name: string, c: Calls) returns (ok: bool)
      modifies this
      ensures Out(State(), ok) == PsOne(old(State()), name, c)
    {
      if name !in disk { return true; }
      if !c.refresh || !c.status { return false; }
      var p := ProcsOf(State(), name);
      var m, changed := Refreshed(disk[name], p), RefreshChanges(disk[name], p);
      var live := Live(StatusOf(m, p.launcher));
      if !live {
        procs := procs[name := StopExecs(p, c.stopExec, c.execsKilled)];
        if !c.stopExec { return false; }
        if HasResources(m) {
          m, ok := CleanupContainerResources(name, m, c.cleanup);
          if !ok { return; }
          changed := true;
        }
      }
      if changed {
        if !c.write { return false; }
        disk := disk[name := m];
      }
      if m.autoRemove && !live {
        ok := RemoveContainer(name, c.remove);
        return;
      }
      ok := true;
    }

    /** commandPS. */
    method CommandPS(names: seq<string>, calls: string -> Calls) returns (ok: bool)
      modifies this
      ensures Out(State(), ok) == Ps(old(State()), names, calls)
    {
      var i := 0;
      while i < |names|
        invariant 0 <= i <= |names|
        invariant Ps(State(), names[i..], calls) == Ps(old(State()), names, calls)
      {
        assert names[i..][0] == names[i] && names[i..][1..] == names[i + 1..];
        ok := PSContainer(names[i], calls(names[i]));
        if !ok { return; }
        i := i + 1;
      }
      ok := true;
    }

    /** The deferred function of commandRun: what had been installed is taken down again and the directory removed. */
    method Rollback(name: string, config: NetConfig, pf: Option<Meta>)
      modifies this
      ensures var h1 := if pf.Some? then CleanupPF(old(Resources()), pf.value, ALL_SUCCEED).host else old(Resources());
              State() == old(State()).(host := CleanupNetwork(h1, old(disk), name, config, ALL_SUCCEED).host,
                                       disk := old(disk) - {name})
    {
      var ok;
      if pf.Some? { ok := CleanupPFMappings(pf.value, ALL_SUCCEED); }
      ok := CleanupMackerNetwork(name, config, ALL_SUCCEED);
      disk := disk - {name};
    }

    /** commandRun from its published ports on: automatic node ports are settled in place, and what follows publishes
        exactly those. */
    method CommandRunPublishing(r: Request, ports: array<PortMapping>, probes: nat -> (uint16 -> Probe), c: RunCalls)
      returns (ok: bool, error: Option<AllocationError>)
      modifies this, ports
      ensures error.Some? ==> !ok && State() == old(State())
      ensures error.None? ==> Out(State(), ok) == Run(old(State()), r.(ports := ports[..]), c)
      ensures ok ==> forall i :: 0 <= i < ports.Length ==> ResolvedAs(old(ports[i]), ports[i], ports[..i], probes(i))
      ensures ok ==> r.name in disk && disk[r.name].ports == ports[..]
    {
      error := None;
      var duplicate := Duplicated(ports[..]);
      if duplicate { return false, None; }
      error := ResolveNodePorts(ports, probes);
      if error.Some? { return false, error; }
      ok := CommandRun(r.(ports := ports[..]), c);
      if ok { PublishesItsPorts(old(State()), r.(ports := ports[..]), c); }
    }

    /** commandRun. The record is written before the workload is started and goes again if that fails. */
    method CommandRun(r: Request, c: RunCalls) returns (ok: bool)
      modifies this
      ensures Out(State(), ok) == Run(old(State()), r, c)
    {
      var duplicate := Duplicated(r.ports);
      if duplicate { return false; }
      var conflict := PortConflict(disk, r.name, Destination(r), r.ports);
      if conflict || r.name in disk { return false; }
      var config;
      if r.HostRequest? { config := SetupMackerNetwork(c); } else { config := SetupExternalNetwork(r, c); }
      if config.None? {
        assert SetupFor(old(State()), r, c).config.None?;
        SetupShape(old(State()), r, c);
        return false;
      }
      ok := RunInstalled(r, config.value, c);
    }

    /** commandRun once its network is there. */
    method RunInstalled(r: Request, config: NetConfig, c: RunCalls) returns (ok: bool)
      requires r.name !in disk
      modifies this
      ensures Out(State(), ok) == RunWith(old(State()), r, old(ifaces), config, c)
    {
      ok := c.prepare && (r.ports == [] || c.install);
      if !ok {
        assert disk - {r.name} == disk;
        Rollback(r.name, config, None);
        return;
      }
      InstallPFMappings(r, config, c);
      ok := Launch(r, config, c);
    }

    /** installPFPortMappings. */
    method InstallPFMappings(r: Request, config: NetConfig, c: RunCalls)
      modifies this`anchors, this`tokens
      ensures Resources() == Installed(old(Resources()), r, config, c)
    {
      if r.ports != [] {
        anchors := anchors[AnchorFor(r.name) := Rules(Destination(r), config.ip, r.ports)];
        tokens := tokens + {c.token};
      }
    }

    /** The way out of commandRun when a record had been written already. */
    method Abandon(ghost before: Disk, name: string, starting: Meta, config: NetConfig, pf: Meta)
      requires name !in before && disk == before[name := starting]
      modifies this
      ensures State() == old(State()).(disk := before,
                host := CleanupNetwork(CleanupPF(old(Resources()), pf, ALL_SUCCEED).host, before, name, config,
                    ALL_SUCCEED).host)
    {
      OwnRecordIsPassedOver(CleanupPF(Resources(), pf, ALL_SUCCEED).host, before, name, starting, config, ALL_SUCCEED);
      assert disk - {name} == before;
      Rollback(name, config, Some(pf));
    }

    /** The end of commandRun: the record is written before the workload is started, and taken back if that fails. */
    method Launch(r: Request, config: NetConfig, c: RunCalls) returns (ok: bool)
      requires r.name !in disk
      modifies this
      ensures ok == (c.launch && c.record)
      ensures ok ==> State() == Started(old(State()), r, old(Resources()), config, c)
      ensures !ok ==> State() == old(State()).(host := Undo(old(Resources()), old(disk), r, config,
                   Some(NewMeta(r, config, c))))
    {
      var m := NewMeta(r, config, c);
      disk := disk[r.name := m.(pid := false, launcherStarted := false)];
      ok := c.launch && c.record;
      if !ok {
        Abandon(old(disk), r.name, m.(pid := false, launcherStarted := false), config, m);
        return;
      }
      RecordStarted(old(disk), r, m);
    }

    /** The workload runs and the full record is written. */
    method RecordStarted(ghost before: Disk, r: Request, m: Meta)
      requires r.name in disk && disk == before[r.name := disk[r.name]]
      modifies this`disk, this`procs, this`foreground
      ensures disk == before[r.name := m]
      ensures procs == old(procs)[r.name := Processes(r.detach, Running, [], false)]
      ensures foreground == if r.detach then old(foreground) else old(foreground)[r.name := m]
    {
      procs := procs[r.name := Processes(r.detach, Running, [], false)];
      disk := disk[r.name := m];
      if !r.detach { foreground := foreground[r.name := m]; }
    }

    /** The rest of commandRun in the foreground, once the workload has ended. */
    method FinishRun(name: string, exitKnown: bool, c: Calls) returns (ok: bool)
      modifies this
      ensures Out(State(), ok) == Finish(old(State()), name, exitKnown, c)
    {
      if name !in foreground { return false; }
      var m := foreground[name];
      procs := procs[name := ProcsOf(State(), name).(workload := Dead, record := exitKnown)];
      foreground := foreground - {name};
      if exitKnown { m := ApplyExit(m); }
      m := m.(pid := false, launcherStarted := false, stopped := true);
      m, ok := CleanupContainerResources(name, m, c.cleanup);
      if !c.write { return false; }
      disk := disk[name := m];
      if m.autoRemove && ok { ok := RemoveContainer(name, c.remove); }
    }
  }
}
