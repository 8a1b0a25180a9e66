/** Containers and the host resources they own: the commands of cmd/macker/main.go over metadata on disk, processes,
    PF anchors and interfaces. Every privileged or fallible call takes its outcome from a `Calls` record, so what is
    proved for all records holds however the host behaves. */
module Lifecycle {
  import opened Text
  import opened Network

  datatype Mode = HostMode | ExternalMode

  /** containerMetadata, as far as resources and status go; a field of type bool says that the recorded value is set.
      `pid` is set for detached workloads. */
  datatype Meta = Meta(mode: Mode, ports: seq<PortMapping>, pfAnchor: Option<string>, pfToken: Option<nat>,
                       net: Option<NetConfig>, autoRemove: bool, pid: bool, launcherStarted: bool,
                       paused: bool, finished: bool, stopped: bool)

  /** An interface and who made it; no command reads `mine`. */
  datatype Interface = Interface(addresses: set<string>, mine: bool)

  /** `rdr pass inet proto protocol from any to destination port = hostPort -> target port nodePort`. */
  datatype Rule = Rule(protocol: string, destination: Option<string>, hostPort: uint16, target: string,
                       nodePort: uint16)

  datatype Process = Dead | Running | Suspended

  /** The launcher, the workload, the tracked exec children, and whether exit.json has been written. */
  datatype Processes = Processes(launcher: bool, workload: Process, execs: seq<Process>, record: bool)

  type Interfaces = map<string, Interface>
  type Disk = map<string, Meta>

  /** What privileged calls act on. */
  datatype Host = Host(ifaces: Interfaces, anchors: map<string, seq<Rule>>, tokens: set<nat>)

  /** `foreground` holds the metadata a foreground run keeps in memory until its workload ends. */
  datatype World = World(disk: Disk, host: Host, procs: map<string, Processes>, foreground: Disk)

  datatype Out = Out(world: World, ok: bool)

  /** The outcomes of the calls a cleanup makes; true is success. */
  datatype CleanupCalls = CleanupCalls(flush: bool, release: bool, inspectIface: bool, destroyIface: bool,
                                       scan: bool, inspectHost: bool, destroyHost: bool)

  /** The outcomes of the other calls of stop, pause, unpause, rm and ps. `undelivered` are the signal targets that
      cannot be signalled, `exitRecord` whether a terminated launcher left one. */
  datatype Calls = Calls(refresh: bool, firstWrite: bool, status: bool, identity: bool, resolve: bool,
      undelivered: set<nat>,
                         stopExec: bool, execsKilled: set<nat>, alive: bool, terminate: bool, exitRecord: bool,
                         refreshAgain: bool, write: bool, remove: bool, cleanup: CleanupCalls)

  /** pfAnchorForContainer: a hash taken to be injective, so the name itself serves. */
  function AnchorFor(name: string): string {
    "com.apple/macker-" + name
  }

  datatype Status = IsRunning | IsPaused | IsExited | IsStopped

  /** containerStatus, given whether the launcher is alive. */
  function StatusOf(m: Meta, launcher: bool): Status {
    if m.pid then
      if launcher then (if m.paused then IsPaused else IsRunning) else IsExited
    else if m.stopped then IsStopped
    else if m.finished then IsExited
    else if m.paused then IsPaused
    else IsRunning
  }

  predicate Live(status: Status) {
    status.IsRunning? || status.IsPaused?
  }

  const NO_PROCESSES := Processes(false, Dead, [], false)

  function ProcsOf(w: World, name: string): Processes {
    if name in w.procs then w.procs[name] else NO_PROCESSES
  }

  /** applyProcessExitInfo. */
  function ApplyExit(m: Meta): Meta {
    m.(finished := true, launcherStarted := false, paused := false)
  }

  /** refreshContainerExitInfo when its reads succeed: the exit record counts once the launcher is gone. */
  function Refreshed(m: Meta, p: Processes): Meta {
    if p.record && !(m.pid && p.launcher) then ApplyExit(m) else m
  }

  function RefreshChanges(m: Meta, p: Processes): bool {
    p.record && !(m.pid && p.launcher)
  }

  datatype HostOut = HostOut(host: Host, ok: bool)

  /** cleanupPFPortMappings: both halves are tried. A stale token counts as released. */
  function CleanupPF(h: Host, m: Meta, c: CleanupCalls): HostOut {
    HostOut(h.(anchors := if m.pfAnchor.Some? && c.flush then h.anchors - {m.pfAnchor.value} else h.anchors,
               tokens := if m.pfToken.Some? && c.release then h.tokens - {m.pfToken.value} else h.tokens),
            (m.pfAnchor.Some? ==> c.flush) && (m.pfToken.Some? ==> c.release))
  }

  /** destroyMackerInterface: an interface that is gone already is a success. */
  function Destroy(h: Host, name: string, inspect: bool, destroy: bool): HostOut {
    if !inspect then HostOut(h, false)
    else if name !in h.ifaces then HostOut(h, true)
    else if !destroy then HostOut(h, false)
    else HostOut(h.(ifaces := h.ifaces - {name}), true)
  }

  predicate RefersTo(m: Meta, hostInterface: string) {
    m.net.Some? && m.net.value.hostInterface == hostInterface
  }

  /** mackerHostBridgeInUse. */
  predicate InUse(disk: Disk, exclude: string, hostInterface: string) {
    exists n :: n in disk && n != exclude && RefersTo(disk[n], hostInterface)
  }

  function CleanupIface(h: Host, config: NetConfig, c: CleanupCalls): HostOut {
    if config.ifaceOwned && config.iface != "" then Destroy(h, config.iface, c.inspectIface, c.destroyIface)
      else HostOut(h, true)
  }

  function CleanupBridge(h: Host, disk: Disk, name: string, config: NetConfig, c: CleanupCalls): HostOut {
    if config.hostOwned && config.hostInterface != "" then
      if !c.scan then HostOut(h, false)
      else if InUse(disk, name, config.hostInterface) then HostOut(h, true)
      else Destroy(h, config.hostInterface, c.inspectHost, c.destroyHost)
    else HostOut(h, true)
  }

  /** cleanupMackerNetwork: the bridge is tried even when the interface could not be destroyed. */
  function CleanupNetwork(h: Host, disk: Disk, name: string, config: NetConfig, c: CleanupCalls): HostOut {
    var first := CleanupIface(h, config, c);
    var second := CleanupBridge(first.host, disk, name, config, c);
    HostOut(second.host, first.ok && second.ok)
  }

  datatype Cleaned = Cleaned(host: Host, meta: Meta, ok: bool)

  /** cleanupContainerResources: a field is cleared only when its own cleanup succeeded. */
  function Cleanup(h: Host, disk: Disk, name: string, m: Meta, c: CleanupCalls): Cleaned {
    var pf := CleanupPF(h, m, c);
    var net := if m.net.Some? then CleanupNetwork(pf.host, disk, name, m.net.value, c) else HostOut(pf.host, true);
    Cleaned(net.host, Cleared(m, pf.ok, net.ok), pf.ok && net.ok)
  }

  function Cleared(m: Meta, pfReleased: bool, netReleased: bool): Meta {
    m.(pfAnchor := if pfReleased then None else m.pfAnchor,
       pfToken := if pfReleased then None else m.pfToken,
       net := if netReleased then None else m.net)
  }

  function HasResources(m: Meta): bool {
    m.pfAnchor.Some? || m.pfToken.Some? || m.net.Some?
  }

  datatype Signal = StopSignal | ContinueSignal

  function Deliver(p: Process, signal: Signal): Process {
    match (p, signal)
    case (Running, StopSignal) => Suspended
    case (Suspended, ContinueSignal) => Running
    case _ => p
  }

  /** The targets of a signal, the workload first. */
  function Targets(p: Processes): seq<Process> {
    [p.workload] + p.execs
  }

  function WithTargets(p: Processes, targets: seq<Process>): Processes
    requires targets != []
  {
    p.(workload := targets[0], execs := targets[1..])
  }

  /** signalProcessTargets: dead targets are passed over, a failed delivery does not keep the rest from being tried. */
  function Signalled(targets: seq<Process>, signal: Signal, undelivered: set<nat>): (r: seq<Process>)
    ensures |r| == |targets|
    ensures forall i :: 0 <= i < |r| ==> r[i] == if i in undelivered then targets[i] else Deliver(targets[i], signal)
  {
    seq(|targets|, i requires 0 <= i < |targets| => if i in undelivered then targets[i]
        else Deliver(targets[i], signal))
  }

  predicate AllSignalled(targets: seq<Process>, undelivered: set<nat>) {
    forall i :: 0 <= i < |targets| && i in undelivered ==> targets[i].Dead?
  }

  datatype SignalOut = SignalOut(procs: Processes, ok: bool)

  /** signalContainerProcessGroups; `resolve` is whether the workload's process could be named at all. */
  function SignalGroups(p: Processes, signal: Signal, resolve: bool, undelivered: set<nat>): SignalOut {
    if !resolve then SignalOut(p, false)
    else SignalOut(WithTargets(p, Signalled(Targets(p), signal, undelivered)), AllSignalled(Targets(p), undelivered))
  }

  function WithProcs(w: World, name: string, p: Processes): World {
    w.(procs := w.procs[name := p])
  }

  function WithMeta(w: World, name: string, m: Meta): World {
    w.(disk := w.disk[name := m])
  }

  /** The start of pause and unpause: the record is refreshed, and written back if that changed it. */
  function Begun(w: World, name: string, c: Calls): Out {
    if name !in w.disk || !c.refresh then Out(w, false)
    else if RefreshChanges(w.disk[name], ProcsOf(w, name)) then
      if c.firstWrite then Out(WithMeta(w, name, ApplyExit(w.disk[name])), true) else Out(w, false)
    else Out(w, true)
  }

  /** validateContainerProcessIdentity: start times must be recorded and match, and both processes live. */
  predicate Identified(m: Meta, p: Processes, identity: bool) {
    m.pid && m.launcherStarted && p.launcher && !p.workload.Dead? && identity
  }

  /** commandPause. A failed signal or write is rolled back by a signal that is taken to succeed. */
  function Pause(w: World, name: string, c: Calls): Out {
    var begun := Begun(w, name, c);
    if !begun.ok then begun
    else
      var w1 := begun.world;
      var m, p := w1.disk[name], ProcsOf(w1, name);
      if !c.status || StatusOf(m, p.launcher) != IsRunning || !Identified(m, p, c.identity) then Out(w1, false)
      else
        var sent := SignalGroups(p, StopSignal, c.resolve, c.undelivered);
        var back := SignalGroups(sent.procs, ContinueSignal, c.resolve, {});
        if !sent.ok || !c.write then Out(WithProcs(w1, name, back.procs), false)
        else Out(WithMeta(WithProcs(w1, name, sent.procs), name, m.(paused := true)), true)
  }

  /** commandUnpause. */
  function Unpause(w: World, name: string, c: Calls): Out {
    var begun := Begun(w, name, c);
    if !begun.ok then begun
    else
      var w1 := begun.world;
      var m, p := w1.disk[name], ProcsOf(w1, name);
      if !c.status || StatusOf(m, p.launcher) != IsPaused || !Identified(m, p, c.identity) then Out(w1, false)
      else
        var sent := SignalGroups(p, ContinueSignal, c.resolve, c.undelivered);
        var back := SignalGroups(sent.procs, StopSignal, c.resolve, {});
        if !sent.ok || !c.write then Out(WithProcs(w1, name, back.procs), false)
        else Out(WithMeta(WithProcs(w1, name, sent.procs), name, m.(paused := false)), true)
  }

  /** stopExecProcesses: all exec children end, or some do and the command fails. */
  function StopExecs(p: Processes, ok: bool, killed: set<nat>): Processes {
    p.(execs := seq(|p.execs|, i requires 0 <= i < |p.execs| => if ok || i in killed then Dead else p.execs[i]))
  }

  /** removeContainer: the directory goes with everything in it. */
  function Remove(w: World, name: string, ok: bool): Out {
    if ok then Out(w.(disk := w.disk - {name}), true) else Out(w, false)
  }

  /** The end of stop, rm and a foreground run: clean up, and only then write (or remove). */
  function CleanAndWrite(w: World, name: string, m: Meta, c: Calls): Out {
    var done := Cleanup(w.host, w.disk, name, m, c.cleanup);
    var w1 := w.(host := done.host);
    if !done.ok then Out(w1, false)
    else if !c.write then Out(w1, false)
    else Out(WithMeta(w1, name, done.meta), true)
  }

  /** A terminated launcher takes its workload with it. */
  function Terminated(p: Processes, c: Calls): Processes {
    if p.launcher then p.(launcher := false, workload := Dead, record := p.record || c.exitRecord) else p
  }

  function StoppedMeta(m: Meta): Meta {
    m.(finished := true, pid := false, launcherStarted := false, stopped := true)
  }

  /** Stopping a detached workload whose launcher is `p`'s. */
  function StopDetached(w: World, name: string, m: Meta, p: Processes, c: Calls): Out {
    var done := Cleanup(w.host, w.disk, name, m, c.cleanup);
    var w1 := w.(host := done.host);
    if !done.ok || !c.refreshAgain || !c.write then Out(w1, false)
    else
      var w2 := WithMeta(w1, name, StoppedMeta(Refreshed(done.meta, p)));
      if m.autoRemove then Remove(w2, name, c.remove) else Out(w2, true)
  }

  /** Stopping what has no launcher: only a stopped container's resources are tried again. */
  function StopAgain(w: World, name: string, m: Meta, c: Calls): Out {
    if !m.stopped then Out(w, false)
    else
      var written := CleanAndWrite(w, name, m, c);
      if !written.ok then written
      else if m.autoRemove then Remove(written.world, name, c.remove)
      else Out(written.world, false)
  }

  /** What stop does once a paused workload has been resumed and the exec children are gone. */
  function StopResumed(w: World, name: string, m: Meta, c: Calls): Out {
    var p := ProcsOf(w, name);
    if !m.pid then StopAgain(w, name, m, c)
    else if !c.alive || (p.launcher && !c.terminate) then Out(w, false)
    else StopDetached(WithProcs(w, name, Terminated(p, c)), name, m, Terminated(p, c), c)
  }

  /** A paused workload is resumed before it is stopped. */
  function Resume(m: Meta, p: Processes, c: Calls): SignalOut {
    if m.paused then SignalGroups(p, ContinueSignal, c.resolve, c.undelivered) else SignalOut(p, true)
  }

  function StopBegun(w: World, name: string, m: Meta, c: Calls): Out {
    var sent := Resume(m, ProcsOf(w, name), c);
    if !sent.ok then Out(WithProcs(w, name, sent.procs), false)
    else
      var w1 := WithProcs(w, name, StopExecs(sent.procs, c.stopExec, c.execsKilled));
      if !c.stopExec then Out(w1, false) else StopResumed(w1, name, m.(paused := false), c)
  }

  /** commandStop. A launcher whose start was recorded must still be there, unless an exit record has replaced it. */
  function Stop(w: World, name: string, c: Calls): Out {
    if name !in w.disk || !c.refresh then Out(w, false)
    else
      var p := ProcsOf(w, name);
      var m := Refreshed(w.disk[name], p);
      if m.pid && m.launcherStarted && !(p.launcher && c.identity) then Out(w, false)
      else StopBegun(w, name, m, c)
  }

  /** commandRM. */
  function Rm(w: World, name: string, force: bool, c: Calls): Out {
    if name !in w.disk || !c.status then Out(w, false)
    else
      var m, p := w.disk[name], ProcsOf(w, name);
      if Live(StatusOf(m, p.launcher)) then
        if !force then Out(w, false)
        else
          var stopped := Stop(w, name, c);
          if !stopped.ok || m.autoRemove then stopped else Remove(stopped.world, name, c.remove)
      else
        var w1 := WithProcs(w, name, StopExecs(p, c.stopExec, c.execsKilled));
        if !c.stopExec then Out(w1, false) else RmDead(w1, name, m, c)
  }

  /** What rm does to a container that is neither running nor paused: no record is written before the removal. */
  function RmDead(w: World, name: string, m: Meta, c: Calls): Out {
    var done := Cleanup(w.host, w.disk, name, m, c.cleanup);
    var w1 := w.(host := done.host);
    if done.ok then Remove(w1, name, c.remove) else Out(w1, false)
  }

  /** What ps does to a container that is neither running nor paused, once its exec children are gone. */
  function PsDead(w: World, name: string, m: Meta, changed: bool, c: Calls): Out {
    var done := Cleanup(w.host, w.disk, name, m, c.cleanup);
    var w1 := w.(host := done.host);
    var rewrite := changed || HasResources(m);
    if HasResources(m) && !done.ok then Out(w1, false)
    else if rewrite && !c.write then Out(w1, false)
    else
      var w2 := if rewrite then WithMeta(w1, name, done.meta) else w1;
      if m.autoRemove then Remove(w2, name, c.remove) else Out(w2, true)
  }

  /** One container in the loop of commandPS. */
  function PsOne(w: World, name: string, c: Calls): Out {
    if name !in w.disk then Out(w, true)
    else if !c.refresh || !c.status then Out(w, false)
    else
      var p := ProcsOf(w, name);
      var m := Refreshed(w.disk[name], p);
      var changed := RefreshChanges(w.disk[name], p);
      if Live(StatusOf(m, p.launcher)) then
        if !changed then Out(w, true) else if c.write then Out(WithMeta(w, name, m), true) else Out(w, false)
      else
        var w1 := WithProcs(w, name, StopExecs(p, c.stopExec, c.execsKilled));
        if !c.stopExec then Out(w1, false) else PsDead(w1, name, m, changed, c)
  }

  /** commandPS: the containers in some order, until one cannot be dealt with. */
  function Ps(w: World, names: seq<string>, calls: string -> Calls): Out
    decreases |names|
  {
    if names == [] then Out(w, true)
    else
      var first := PsOne(w, names[0], calls(names[0]));
      if !first.ok then first else Ps(first.world, names[1..], calls)
  }

  /** What run is asked for. An empty host interface means none was given. */
  datatype Request =
    | HostRequest(name: string, ports: seq<PortMapping>, autoRemove: bool, detach: bool)
    | ExternalRequest(name: string, ports: seq<PortMapping>, autoRemove: bool, detach: bool,
                      iface: string, ip: string, hostInterface: string, hostIP: string)

  /** The outcomes of the calls run makes. `prepare` is unpacking, substitution and volumes; `launch` covers the first
      metadata write and, detached, starting the launcher; `record` the last write and the registration. */
  datatype RunCalls = RunCalls(inspectHost: bool, readAddress: bool, createHost: bool, scanOwned: bool, scanUsed: bool,
                               bad: nat, createSlot: bool, inspectExternal: bool, prepare: bool, install: bool,
                                 token: nat,
                               launch: bool, record: bool, startTime: bool)

  /** No two published ports share a host port and protocol. */
  predicate DistinctPorts(ports: seq<PortMapping>) {
    forall i, j :: 0 <= i < j < |ports| ==>
      !(ports[i].hostPort == ports[j].hostPort && ports[i].protocol == ports[j].protocol)
  }

  predicate SharesPort(a: seq<PortMapping>, b: seq<PortMapping>) {
    exists i, j :: 0 <= i < |a| && 0 <= j < |b| && a[i].hostPort == b[j].hostPort && a[i].protocol == b[j].protocol
  }

  function Destination(r: Request): Option<string> {
    if r.ExternalRequest? then Some(r.ip) else None
  }

  /** The container `m` may keep its ports beside a request for `destination`: an external one at another address. */
  predicate Elsewhere(m: Meta, destination: Option<string>) {
    destination.Some? && destination.value != "" && m.mode.ExternalMode? && m.net.Some? && m.net.value.ip != ""
      && m.net.value.ip != destination.value
  }

  /** checkPublishedPortConflictsForTarget finds a conflict. */
  predicate Conflict(disk: Disk, name: string, destination: Option<string>, ports: seq<PortMapping>) {
    exists n :: n in disk && n != name && disk[n].pfAnchor.Some? && !Elsewhere(disk[n], destination)
                && SharesPort(ports, disk[n].ports)
  }

  /** buildPFRulesForDestination. */
  function Rules(destination: Option<string>, target: string, ports: seq<PortMapping>): (rules: seq<Rule>)
    ensures |rules| == |ports|
  {
    seq(|ports|, i requires 0 <= i < |ports| =>
      Rule(ports[i].protocol, destination, ports[i].hostPort, target, ports[i].nodePort))
  }

  /** mackerHostBridgeOwned. */
  predicate BridgeOwned(disk: Disk) {
    exists n :: n in disk && RefersTo(disk[n], HOST_BRIDGE) && disk[n].net.value.hostOwned
  }

  /** mackerNetworkInterfacesInUse. */
  function UsedInterfaces(disk: Disk): set<string> {
    set n | n in disk && disk[n].net.Some? && disk[n].net.value.iface != "" :: disk[n].net.value.iface
  }

  datatype Bridge = Bridge(ifaces: Interfaces, owned: bool, ok: bool)

  /** ensureMackerHostBridge. */
  function EnsureBridge(ifaces: Interfaces, disk: Disk, c: RunCalls): Bridge {
    if !c.inspectHost then Bridge(ifaces, false, false)
    else if HOST_BRIDGE in ifaces then
      if !c.readAddress || HOST_IP !in ifaces[HOST_BRIDGE].addresses || !c.scanOwned then Bridge(ifaces, false, false)
      else Bridge(ifaces, BridgeOwned(disk), true)
    else if !c.createHost then Bridge(ifaces, false, false)
    else Bridge(ifaces[HOST_BRIDGE := Interface({HOST_IP}, true)], true, true)
  }

  datatype Setup = Setup(ifaces: Interfaces, config: Option<NetConfig>)

  /** setupMackerNetwork: a failure after the bridge was created takes it down again. */
  function SetupNetwork(ifaces: Interfaces, disk: Disk, c: RunCalls): Setup {
    var bridge := EnsureBridge(ifaces, disk, c);
    if !bridge.ok || !c.scanUsed then Setup(ifaces, None)
    else
      match ScanSlots(UsedInterfaces(disk), bridge.ifaces.Keys, 1, c.bad)
      case Found(i) =>
        if !c.createSlot then Setup(ifaces, None)
        else Setup(bridge.ifaces[SlotName(i) := Interface({SlotIP(i)}, true)],
                   Some(NetConfig(HOST_BRIDGE, HOST_IP, SlotName(i), SlotIP(i), bridge.owned, true)))
      case _ => Setup(ifaces, None)
  }

  /** setupExternalMackerNetwork: nothing is created, both addresses must be there. */
  function SetupExternal(ifaces: Interfaces, r: Request, c: RunCalls): Setup
    requires r.ExternalRequest?
  {
    if (r.hostInterface == "") != (r.hostIP == "") || r.iface == "" || r.ip == "" || !c.inspectExternal
      then Setup(ifaces, None)
    else if r.iface !in ifaces || r.ip !in ifaces[r.iface].addresses then Setup(ifaces, None)
    else if r.hostInterface != "" && (r.hostInterface !in ifaces || r.hostIP !in ifaces[r.hostInterface].addresses)
    then Setup(ifaces, None)
    else Setup(ifaces, Some(NetConfig(r.hostInterface, r.hostIP, r.iface, r.ip, false, false)))
  }

  const ALL_SUCCEED := CleanupCalls(true, true, true, true, true, true, true)

  function NewMeta(r: Request, config: NetConfig, c: RunCalls): Meta {
    Meta(if r.HostRequest? then HostMode else ExternalMode, r.ports,
         if r.ports == [] then None else Some(AnchorFor(r.name)), if r.ports == [] then None else Some(c.token),
         Some(config), r.autoRemove, r.detach, r.detach && c.startTime, false, false, false)
  }

  function Installed(h: Host, r: Request, config: NetConfig, c: RunCalls): Host {
    if r.ports == [] then h
    else h.(anchors := h.anchors[AnchorFor(r.name) := Rules(Destination(r), config.ip, r.ports)],
        tokens := h.tokens + {c.token})
  }

  /** Undo, taken to succeed: the network, and PF if it had been installed. */
  function Undo(h: Host, disk: Disk, r: Request, config: NetConfig, installed: Option<Meta>): Host {
    var h1 := if installed.Some? then CleanupPF(h, installed.value, ALL_SUCCEED).host else h;
    CleanupNetwork(h1, disk, r.name, config, ALL_SUCCEED).host
  }

  function SetupFor(w: World, r: Request, c: RunCalls): Setup {
    if r.HostRequest? then SetupNetwork(w.host.ifaces, w.disk, c) else SetupExternal(w.host.ifaces, r, c)
  }

  /** The world with everything in place and the record written. */
  function Started(w: World, r: Request, h: Host, config: NetConfig, c: RunCalls): World {
    var m := NewMeta(r, config, c);
    var w1 := WithProcs(WithMeta(w.(host := h), r.name, m), r.name, Processes(r.detach, Running, [], false));
    if r.detach then w1 else w1.(foreground := w1.foreground[r.name := m])
  }

  /** commandRun once its network is set up. */
  function RunWith(w: World, r: Request, ifaces: Interfaces, config: NetConfig, c: RunCalls): Out {
    var h := w.host.(ifaces := ifaces);
    if !c.prepare || (r.ports != [] && !c.install) then Out(w.(host := Undo(h, w.disk, r, config, None)), false)
    else
      var h1 := Installed(h, r, config, c);
      if !c.launch || !c.record then Out(w.(host := Undo(h1, w.disk, r, config, Some(NewMeta(r, config, c)))), false)
      else Out(Started(w, r, h1, config, c), true)
  }

  predicate Acceptable(w: World, r: Request) {
    DistinctPorts(r.ports) && !Conflict(w.disk, r.name, Destination(r), r.ports) && r.name !in w.disk
  }

  /** commandRun: detached to its end, in the foreground up to the workload's start. */
  function Run(w: World, r: Request, c: RunCalls): Out {
    var setup := SetupFor(w, r, c);
    if !Acceptable(w, r) || setup.config.None? then Out(w, false)
    else RunWith(w, r, setup.ifaces, setup.config.value, c)
  }

  function FinishedMeta(m: Meta, exitKnown: bool): Meta {
    (if exitKnown then ApplyExit(m) else m).(pid := false, launcherStarted := false, stopped := true)
  }

  function FinishRecord(w: World, name: string, m: Meta, c: Calls): Out {
    var done := Cleanup(w.host, w.disk, name, m, c.cleanup);
    var w1 := w.(host := done.host);
    if !c.write then Out(w1, false)
    else
      var w2 := WithMeta(w1, name, done.meta);
      if m.autoRemove && done.ok then Remove(w2, name, c.remove) else Out(w2, done.ok)
  }

  /** The rest of a foreground run once its workload has ended: in one step, the exit, the cleanup of the resources
      named in memory, the write and, if asked for, the removal. */
  function Finish(w: World, name: string, exitKnown: bool, c: Calls): Out {
    if name !in w.foreground then Out(w, false)
    else
      var ended := ProcsOf(w, name).(workload := Dead, record := exitKnown);
      FinishRecord(WithProcs(w.(foreground := w.foreground - {name}), name, ended), name,
                   FinishedMeta(w.foreground[name], exitKnown), c)
  }

  /** What can happen: a command, or something Macker does not do. */
  datatype Event =
    | RunEvent(request: Request, run: RunCalls)
    | FinishEvent(name: string, exitKnown: bool, calls: Calls)
    | PauseEvent(name: string, calls: Calls)
    | UnpauseEvent(name: string, calls: Calls)
    | StopEvent(name: string, calls: Calls)
    | RmEvent(name: string, force: bool, calls: Calls)
    | PsEvent(names: seq<string>, each: string -> Calls)
    | LauncherExits(name: string)
    | LauncherKilled(name: string)
    | TreeKilled(name: string)
    | ExecStarts(name: string)
    | ExecEnds(name: string, index: nat)
    | InterfaceAppears(iface: string, addresses: set<string>)
    | InterfaceVanishes(iface: string)

  /** A PF enable token is never one that is held or that metadata on disk names. */
  predicate FreshToken(w: World, token: nat) {
    token !in w.host.tokens && forall n :: n in w.disk ==> w.disk[n].pfToken != Some(token)
  }

  function WithIfaces(w: World, ifaces: Interfaces): World {
    w.(host := w.host.(ifaces := ifaces))
  }

  function Step(w: World, e: Event): World {
    match e
    case RunEvent(r, c) => if FreshToken(w, c.token) then Run(w, r, c).world else w
    case FinishEvent(name, exitKnown, c) => Finish(w, name, exitKnown, c).world
    case PauseEvent(name, c) => Pause(w, name, c).world
    case UnpauseEvent(name, c) => Unpause(w, name, c).world
    case StopEvent(name, c) => Stop(w, name, c).world
    case RmEvent(name, force, c) => Rm(w, name, force, c).world
    case PsEvent(names, each) => Ps(w, names, each).world
    case LauncherExits(name) =>
      if ProcsOf(w, name).launcher
      then WithProcs(w, name, ProcsOf(w, name).(launcher := false, workload := Dead, record := true)) else w
    case LauncherKilled(name) => WithProcs(w, name, ProcsOf(w, name).(launcher := false))
    case TreeKilled(name) =>
      if ProcsOf(w, name).launcher then WithProcs(w, name, ProcsOf(w, name).(launcher := false, workload := Dead))
        else w
    case ExecStarts(name) =>
      if name in w.disk && StatusOf(w.disk[name], ProcsOf(w, name).launcher) == IsRunning
      then WithProcs(w, name, ProcsOf(w, name).(execs := ProcsOf(w, name).execs + [Running])) else w
    case ExecEnds(name, i) =>
      if i < |ProcsOf(w, name).execs|
      then WithProcs(w, name, ProcsOf(w, name).(execs := ProcsOf(w, name).execs[i := Dead])) else w
    case InterfaceAppears(iface, addresses) =>
      if iface in w.host.ifaces then w else WithIfaces(w, w.host.ifaces[iface := Interface(addresses, false)])
    case InterfaceVanishes(iface) =>
      WithIfaces(w, w.host.ifaces - {iface})
  }

  /** A run of the system: events in sequence. Interfaces, Macker's own included, come and go by others' hands as they
      like; what a theorem needs of others it demands of the events. */
  function Execute(w: World, events: seq<Event>): World
    decreases |events|
  {
    if events == [] then w else Step(Execute(w, events[..|events| - 1]), events[|events| - 1])
  }

  /** Every event of a run meets `p` where it happens. */
  ghost predicate Throughout(w: World, events: seq<Event>, p: (World, Event) -> bool)
    decreases |events|
  {
    events == [] ||
    (var before := events[..|events| - 1]; Throughout(w, before, p) && p(Execute(w, before), events[|events| - 1]))
  }

  /** `q` holds before the first event of a run and after each. */
  ghost predicate AtEveryPoint(w: World, events: seq<Event>, q: World -> bool) {
    forall i :: 0 <= i <= |events| ==> q(Execute(w, events[..i]))
  }

  lemma LastPoint(w: World, events: seq<Event>, q: World -> bool)
    requires AtEveryPoint(w, events, q)
    ensures q(Execute(w, events))
  {
    assert events[..|events|] == events;
  }

  lemma EarlierPoints(w: World, before: seq<Event>, e: Event, q: World -> bool)
    requires AtEveryPoint(w, before + [e], q)
    ensures AtEveryPoint(w, before, q)
  {
    forall i | 0 <= i <= |before|
      ensures q(Execute(w, before[..i]))
    {
      assert (before + [e])[..i] == before[..i];
    }
  }

  lemma LaterPoint(w: World, before: seq<Event>, e: Event, q: World -> bool)
    requires AtEveryPoint(w, before, q) && q(Execute(w, before + [e]))
    ensures AtEveryPoint(w, before + [e], q)
  {
    var events := before + [e];
    forall i | 0 <= i <= |events|
      ensures q(Execute(w, events[..i]))
    {
      if i <= |before| {
        assert events[..i] == before[..i];
      } else {
        assert events[..i] == events;
      }
    }
  }

  lemma OneMorePoint(w: World, before: seq<Event>, e: Event, q: World -> bool)
    ensures AtEveryPoint(w, before + [e], q) <==> AtEveryPoint(w, before, q) && q(Execute(w, before + [e]))
    ensures AtEveryPoint(w, before, q) ==> q(Execute(w, before))
  {
    if AtEveryPoint(w, before + [e], q) {
      EarlierPoints(w, before, e, q);
      LastPoint(w, before + [e], q);
    }
    if AtEveryPoint(w, before, q) {
      LastPoint(w, before, q);
      if q(Execute(w, before + [e])) { LaterPoint(w, before, e, q); }
    }
  }

  /** The record calls the interface `s` Macker's own. */
  predicate CallsOwn(m: Meta, s: string) {
    && m.net.Some?
    && ((m.net.value.ifaceOwned && m.net.value.iface == s) || (m.net.value.hostOwned && m.net.value.hostInterface == s))
  }

  /** Nobody else takes a name that a record calls Macker's own. */
  ghost predicate NoSquatting(w: World, e: Event) {
    e.InterfaceAppears? ==> forall n :: n in w.disk ==> !CallsOwn(w.disk[n], e.iface)
  }

  /** Nobody else destroys the bridge while a record refers to it. */
  ghost predicate SparesReferredBridge(w: World, e: Event) {
    e.InterfaceVanishes? && e.iface == HOST_BRIDGE ==> forall n :: n in w.disk ==> !RefersTo(w.disk[n], HOST_BRIDGE)
  }

  /** Nothing of Macker's yet, whatever interfaces there are. */
  ghost predicate Initial(w: World) {
    && w.disk == map[] && w.procs == map[] && w.foreground == map[] && w.host.anchors == map[] && w.host.tokens == {}
    && forall s :: s in w.host.ifaces ==> !w.host.ifaces[s].mine
  }
}
