/** Exactly when each command succeeds, told by the records, the processes and the calls, and what a command that
    succeeds leaves. */
module Successes {
  import opened Text
  import opened Network
  import opened Lifecycle
  import opened Ledger

  /** An exit record counts, unless the container is a detached one whose launcher is alive. */
  predicate HasEnded(w: World, name: string)
    requires name in w.disk
  {
    ProcsOf(w, name).record && !(w.disk[name].pid && ProcsOf(w, name).launcher)
  }

  /** Whatever lives of the container can be signalled: the workload, which is target 0, and its exec children. */
  predicate AllReached(p: Processes, c: Calls) {
    && c.resolve
    && (p.workload != Dead ==> 0 !in c.undelivered)
    && forall i :: 0 <= i < |p.execs| && p.execs[i] != Dead ==> i + 1 !in c.undelivered
  }

  /** Whatever lives of the container is in the given state, and what was dead still is. */
  predicate AllAre(p: Processes, before: Processes, state: Process) {
    && p.workload == (if before.workload == Dead then Dead else state)
    && |p.execs| == |before.execs|
    && forall i :: 0 <= i < |p.execs| ==> p.execs[i] == if before.execs[i] == Dead then Dead else state
  }

  /** A detached container with its launcher and workload alive and identified by their start times. */
  predicate Reachable(w: World, name: string, c: Calls) {
    && name in w.disk && c.refresh && c.status && c.identity
    && w.disk[name].pid && w.disk[name].launcherStarted
    && ProcsOf(w, name).launcher && ProcsOf(w, name).workload != Dead
  }

  lemma AllSignalledExactly(p: Processes, signal: Signal, c: Calls)
    ensures SignalGroups(p, signal, c.resolve, c.undelivered).ok <==> AllReached(p, c)
  {
    var targets := Targets(p);
    assert targets[0] == p.workload && forall i :: 0 <= i < |p.execs| ==> targets[i + 1] == p.execs[i];
    if AllReached(p, c) {
      forall i | 0 <= i < |targets| && i in c.undelivered
        ensures targets[i].Dead?
      {
        assert i > 0 ==> p.execs[i - 1] == targets[i];
      }
    }
  }

  /** A signal that reaches all puts all that live into the state it is for. */
  lemma SignalPutsAll(p: Processes, signal: Signal, resolve: bool, undelivered: set<nat>)
    requires SignalGroups(p, signal, resolve, undelivered).ok
    ensures var q := SignalGroups(p, signal, resolve, undelivered).procs;
            AllAre(q, p, if signal.StopSignal? then Suspended else Running)
            && q.launcher == p.launcher && q.record == p.record
  {
    var targets := Targets(p);
    assert targets[0] == p.workload && forall i :: 0 <= i < |p.execs| ==> targets[i + 1] == p.execs[i];
  }

  /** Pause succeeds if and only if the container is detached, running, identified and not paused, everything that lives
      of it can be signalled and the record written; then all of it is suspended and the record says so. */
  lemma PauseSucceedsExactly(w: World, name: string, c: Calls)
    ensures var out := Pause(w, name, c);
            && (out.ok <==>
                  && Reachable(w, name, c) && !w.disk[name].paused && AllReached(ProcsOf(w, name), c) && c.write)
            && (out.ok ==>
                  && out.world == w.(disk := w.disk[name := w.disk[name].(paused := true)], procs := out.world.procs)
                  && out.world.procs == w.procs[name := ProcsOf(out.world, name)]
                  && AllAre(ProcsOf(out.world, name), ProcsOf(w, name), Suspended)
                  && ProcsOf(out.world, name).launcher
                  && ProcsOf(out.world, name).record == ProcsOf(w, name).record)
  {
    if name in w.disk {
      var p := ProcsOf(w, name);
      AllSignalledExactly(p, StopSignal, c);
      if AllReached(p, c) { SignalPutsAll(p, StopSignal, c.resolve, c.undelivered); }
    }
  }

  /** Unpause succeeds if and only if the container is paused, and otherwise likewise; then all of it runs and the
      record no longer says that it is paused. */
  lemma UnpauseSucceedsExactly(w: World, name: string, c: Calls)
    ensures var out := Unpause(w, name, c);
            && (out.ok <==>
                  && Reachable(w, name, c) && w.disk[name].paused && AllReached(ProcsOf(w, name), c) && c.write)
            && (out.ok ==>
                  && out.world == w.(disk := w.disk[name := w.disk[name].(paused := false)], procs := out.world.procs)
                  && out.world.procs == w.procs[name := ProcsOf(out.world, name)]
                  && AllAre(ProcsOf(out.world, name), ProcsOf(w, name), Running)
                  && ProcsOf(out.world, name).launcher
                  && ProcsOf(out.world, name).record == ProcsOf(w, name).record)
  {
    if name in w.disk {
      var p := ProcsOf(w, name);
      AllSignalledExactly(p, ContinueSignal, c);
      if AllReached(p, c) { SignalPutsAll(p, ContinueSignal, c.resolve, c.undelivered); }
    }
  }

  /** What an exit record makes of a container's record. */
  function Ended(m: Meta): Meta {
    m.(finished := true, launcherStarted := false, paused := false)
  }

  /** The record is as it was, but for an exit record that counts and could be written back. */
  ghost predicate OnlyRefreshed(w: World, w': World, name: string, c: Calls) {
    if name in w.disk && c.refresh && HasEnded(w, name) && c.firstWrite
    then w' == w.(disk := w.disk[name := Ended(w.disk[name])], procs := w'.procs)
    else w' == w.(procs := w'.procs)
  }

  /** All that lives is in the given state if signals could be sent at all; otherwise nothing has changed. */
  ghost predicate RolledBack(w: World, w': World, name: string, sent: bool, c: Calls, state: Process) {
    if sent && c.resolve then
      && w'.procs == w.procs[name := ProcsOf(w', name)] && AllAre(ProcsOf(w', name), ProcsOf(w, name), state)
      && ProcsOf(w', name).launcher == ProcsOf(w, name).launcher && ProcsOf(w', name).record == ProcsOf(w, name).record
    else forall n :: ProcsOf(w', n) == ProcsOf(w, n)
  }

  /** A signal neither kills nor revives. */
  lemma SameDead(p: Processes, signal: Signal, resolve: bool, undelivered: set<nat>)
    ensures var q := SignalGroups(p, signal, resolve, undelivered).procs;
            && (q.workload.Dead? <==> p.workload.Dead?) && |q.execs| == |p.execs|
            && (forall i :: 0 <= i < |p.execs| ==> (q.execs[i].Dead? <==> p.execs[i].Dead?))
            && q.launcher == p.launcher && q.record == p.record
  {
    var targets := Targets(p);
    assert targets[0] == p.workload && forall i :: 0 <= i < |p.execs| ==> targets[i + 1] == p.execs[i];
  }

  lemma ThereAndBack(p: Processes, signal: Signal, resolve: bool, undelivered: set<nat>)
    requires resolve
    ensures var q := SignalGroups(p, signal, resolve, undelivered).procs;
            var back := SignalGroups(q, if signal.StopSignal? then ContinueSignal else StopSignal, resolve, {}).procs;
            && AllAre(back, p, if signal.StopSignal? then Running else Suspended)
            && back.launcher == p.launcher && back.record == p.record
  {
    var q := SignalGroups(p, signal, resolve, undelivered).procs;
    SameDead(p, signal, resolve, undelivered);
    SignalPutsAll(q, if signal.StopSignal? then ContinueSignal else StopSignal, resolve, {});
  }

  /** What a pause that fails leaves: the record but for a refresh, and, if it had come to signalling, everything
      running again. */
  lemma PauseFailsExactly(w: World, name: string, c: Calls)
    requires !Pause(w, name, c).ok
    ensures var w' := Pause(w, name, c).world;
            && OnlyRefreshed(w, w', name, c)
            && RolledBack(w, w', name, Reachable(w, name, c) && !w.disk[name].paused, c, Running)
  {
    if name in w.disk && c.resolve {
      ThereAndBack(ProcsOf(w, name), StopSignal, c.resolve, c.undelivered);
    }
  }

  /** And an unpause: everything suspended again. */
  lemma UnpauseFailsExactly(w: World, name: string, c: Calls)
    requires !Unpause(w, name, c).ok
    ensures var w' := Unpause(w, name, c).world;
            && OnlyRefreshed(w, w', name, c)
            && RolledBack(w, w', name, Reachable(w, name, c) && w.disk[name].paused, c, Suspended)
  {
    if name in w.disk && c.resolve {
      ThereAndBack(ProcsOf(w, name), ContinueSignal, c.resolve, c.undelivered);
    }
  }

  /** Anchor and token, as far as there are any, can be given back. */
  predicate PFReleases(m: Meta, k: CleanupCalls) {
    (m.pfAnchor.Some? ==> k.flush) && (m.pfToken.Some? ==> k.release)
  }

  predicate OwnsInterface(config: NetConfig) {
    config.ifaceOwned && config.iface != ""
  }

  predicate OwnsHostInterface(config: NetConfig) {
    config.hostOwned && config.hostInterface != ""
  }

  predicate OthersRefer(disk: Disk, name: string, hostInterface: string) {
    exists n :: n in disk && n != name && disk[n].net.Some? && disk[n].net.value.hostInterface == hostInterface
  }

  predicate InterfaceReleases(ifaces: Interfaces, config: NetConfig, k: CleanupCalls) {
    OwnsInterface(config) ==> k.inspectIface && (config.iface in ifaces ==> k.destroyIface)
  }

  /** A host interface to which others refer is nobody's to destroy. */
  predicate HostReleases(ifaces: Interfaces, disk: Disk, name: string, config: NetConfig, k: CleanupCalls) {
    OwnsHostInterface(config) ==>
      && k.scan
      && (!OthersRefer(disk, name, config.hostInterface) ==>
            k.inspectHost && (config.hostInterface in ifaces ==> k.destroyHost))
  }

  function WithoutIface(ifaces: Interfaces, config: NetConfig): Interfaces {
    if OwnsInterface(config) then ifaces - {config.iface} else ifaces
  }

  function WithoutHost(ifaces: Interfaces, disk: Disk, name: string, config: NetConfig): Interfaces {
    if OwnsHostInterface(config) && !OthersRefer(disk, name, config.hostInterface)
    then ifaces - {config.hostInterface} else ifaces
  }

  /** The container's own interface is gone, or can be destroyed, and so is the host interface its record claims. */
  predicate NetworkReleases(ifaces: Interfaces, disk: Disk, name: string, m: Meta, k: CleanupCalls) {
    m.net.Some? ==>
      && InterfaceReleases(ifaces, m.net.value, k)
      && HostReleases(WithoutIface(ifaces, m.net.value), disk, name, m.net.value, k)
  }

  /** Nothing of the container's resources will be left. */
  predicate Releases(h: Host, disk: Disk, name: string, m: Meta, k: CleanupCalls) {
    PFReleases(m, k) && NetworkReleases(h.ifaces, disk, name, m, k)
  }

  /** The host without the resources the record names, a host interface spared to which others refer. */
  function HostWithout(h: Host, disk: Disk, name: string, m: Meta): Host {
    Host(if m.net.None? then h.ifaces else WithoutHost(WithoutIface(h.ifaces, m.net.value), disk, name, m.net.value),
         if m.pfAnchor.Some? then h.anchors - {m.pfAnchor.value} else h.anchors,
         if m.pfToken.Some? then h.tokens - {m.pfToken.value} else h.tokens)
  }

  lemma IfaceSucceedsExactly(h: Host, config: NetConfig, k: CleanupCalls)
    ensures CleanupIface(h, config, k).ok <==> InterfaceReleases(h.ifaces, config, k)
    ensures CleanupIface(h, config, k).ok ==>
              CleanupIface(h, config, k).host == h.(ifaces := WithoutIface(h.ifaces, config))
  {
    assert config.iface !in h.ifaces ==> h.ifaces - {config.iface} == h.ifaces;
  }

  lemma HostSucceedsExactly(h: Host, disk: Disk, name: string, config: NetConfig, k: CleanupCalls)
    ensures CleanupBridge(h, disk, name, config, k).ok <==> HostReleases(h.ifaces, disk, name, config, k)
    ensures CleanupBridge(h, disk, name, config, k).ok ==>
              CleanupBridge(h, disk, name, config, k).host == h.(ifaces := WithoutHost(h.ifaces, disk, name, config))
  {
    assert InUse(disk, name, config.hostInterface) <==> OthersRefer(disk, name, config.hostInterface);
    assert config.hostInterface !in h.ifaces ==> h.ifaces - {config.hostInterface} == h.ifaces;
  }

  lemma NetworkSucceedsExactly(h: Host, disk: Disk, name: string, m: Meta, k: CleanupCalls)
    requires m.net.Some?
    ensures var out := CleanupNetwork(h, disk, name, m.net.value, k);
            && (out.ok <==> NetworkReleases(h.ifaces, disk, name, m, k))
            && (out.ok ==> out.host == h.(ifaces := WithoutHost(WithoutIface(h.ifaces, m.net.value), disk, name,
                                                                m.net.value)))
  {
    IfaceSucceedsExactly(h, m.net.value, k);
    HostSucceedsExactly(CleanupIface(h, m.net.value, k).host, disk, name, m.net.value, k);
  }

  /** A cleanup succeeds if and only if everything the record names can be given back, and then that, and only that, is
      gone from the host. Anchor and token stay on record unless both are given back, the network unless all of it
      is. */
  lemma CleanupSucceedsExactly(h: Host, disk: Disk, name: string, m: Meta, k: CleanupCalls)
    ensures var done := Cleanup(h, disk, name, m, k);
            && (done.ok <==> Releases(h, disk, name, m, k))
            && (done.ok ==> done.host == HostWithout(h, disk, name, m))
            && done.meta == m.(pfAnchor := if PFReleases(m, k) then None else m.pfAnchor,
                               pfToken := if PFReleases(m, k) then None else m.pfToken,
                               net := if NetworkReleases(h.ifaces, disk, name, m, k) then None else m.net)
  {
    CleanedFields(h, disk, name, m, k);
    if m.net.Some? { NetworkSucceedsExactly(CleanupPF(h, m, k).host, disk, name, m, k); }
  }

  lemma WrittenAndRemoved(disk: Disk, name: string, m: Meta)
    ensures disk[name := m] - {name} == disk - {name}
  {
  }

  lemma DetachedExactly(w: World, name: string, m: Meta, p: Processes, c: Calls)
    requires !m.paused
    ensures var out := StopDetached(w, name, m, p, c);
            && (out.ok <==> Releases(w.host, w.disk, name, m, c.cleanup) && c.refreshAgain && c.write
                            && (m.autoRemove ==> c.remove))
            && (out.ok ==> out.world == w.(host := HostWithout(w.host, w.disk, name, m),
                                           disk := if m.autoRemove then w.disk - {name}
                                                   else w.disk[name := Settled(m)]))
  {
    CleanupSucceedsExactly(w.host, w.disk, name, m, c.cleanup);
    WrittenAndRemoved(w.disk, name, Settled(m));
  }

  /** The record of a container that is over and done with. */
  function Settled(m: Meta): Meta {
    m.(pid := false, launcherStarted := false, paused := false, finished := true, stopped := true,
       pfAnchor := None, pfToken := None, net := None)
  }

  lemma AgainExactly(w: World, name: string, m: Meta, c: Calls)
    ensures var out := StopAgain(w, name, m, c);
            && (out.ok <==> m.stopped && Releases(w.host, w.disk, name, m, c.cleanup) && c.write && m.autoRemove
                            && c.remove)
            && (out.ok ==> out.world == w.(host := HostWithout(w.host, w.disk, name, m), disk := w.disk - {name}))
  {
    CleanupSucceedsExactly(w.host, w.disk, name, m, c.cleanup);
    WrittenAndRemoved(w.disk, name, Cleanup(w.host, w.disk, name, m, c.cleanup).meta);
  }

  /** What has to go well once the container's processes have been dealt with. */
  predicate StopCompletes(m: Meta, c: Calls) {
    && c.write
    && if m.pid then c.refreshAgain && (m.autoRemove ==> c.remove) else m.stopped && m.autoRemove && c.remove
  }

  lemma ResumedExactly(w: World, name: string, m: Meta, c: Calls)
    requires !m.paused
    ensures var out, p := StopResumed(w, name, m, c), ProcsOf(w, name);
            && (out.ok <==> (m.pid ==> c.alive && (p.launcher ==> c.terminate))
                            && Releases(w.host, w.disk, name, m, c.cleanup) && StopCompletes(m, c))
            && (out.ok ==>
                  && out.world.host == HostWithout(w.host, w.disk, name, m) && out.world.foreground == w.foreground
                  && out.world.disk == (if m.autoRemove then w.disk - {name} else w.disk[name := Settled(m)])
                  && out.world.procs == if m.pid then w.procs[name := Terminated(p, c)] else w.procs)
  {
    var p := Terminated(ProcsOf(w, name), c);
    if m.pid {
      DetachedExactly(WithProcs(w, name, p), name, m, p, c);
    } else {
      AgainExactly(w, name, m, c);
    }
  }

  lemma SameReleases(h: Host, disk: Disk, name: string, m: Meta, b: Meta, k: CleanupCalls)
    requires SameResources(m, b)
    ensures Releases(h, disk, name, m, k) <==> Releases(h, disk, name, b, k)
    ensures HostWithout(h, disk, name, m) == HostWithout(h, disk, name, b)
  {
  }

  /** What is needed of the container's processes for a stop: a launcher whose start was recorded must be there and be
      it, unless the container has ended; what is paused must be resumed, the exec children end, and a detached launcher
      be found dead or die. */
  predicate StopReaches(w: World, name: string, c: Calls)
    requires name in w.disk
  {
    var m, p := w.disk[name], ProcsOf(w, name);
    && (m.pid && m.launcherStarted && !HasEnded(w, name) ==> p.launcher && c.identity)
    && (m.paused && !HasEnded(w, name) ==> AllReached(p, c))
    && c.stopExec && (m.pid ==> c.alive && (p.launcher ==> c.terminate))
  }

  /** What a stop makes of the processes: a detached launcher is gone and the workload with it; otherwise a workload
      that was paused runs. No exec child is left. */
  ghost predicate StoppedProcesses(w: World, name: string, q: Processes, c: Calls)
    requires name in w.disk
  {
    var m, p := w.disk[name], ProcsOf(w, name);
    var terminated := m.pid && p.launcher;
    && q.launcher == (p.launcher && !m.pid)
    && q.record == (p.record || (terminated && c.exitRecord))
    && q.workload == (if terminated then Dead
                      else if m.paused && !HasEnded(w, name) && p.workload != Dead then Running else p.workload)
    && |q.execs| == |p.execs| && forall i :: 0 <= i < |q.execs| ==> q.execs[i] == Dead
  }

  /** Stop succeeds if and only if its processes can be dealt with, all its resources given back and the record written;
      a container that never had a launcher must have been stopped before and be there to be removed. Then its resources
      are gone from the host, its processes are as said above, and its record is settled or, with automatic removal,
      gone. */
  lemma StopSucceedsExactly(w: World, name: string, c: Calls)
    ensures Stop(w, name, c).ok <==>
              && name in w.disk && c.refresh && StopReaches(w, name, c)
              && Releases(w.host, w.disk, name, w.disk[name], c.cleanup) && StopCompletes(w.disk[name], c)
    ensures Stop(w, name, c).ok ==>
              var w', m := Stop(w, name, c).world, w.disk[name];
              && w'.host == HostWithout(w.host, w.disk, name, m) && w'.foreground == w.foreground
              && w'.disk == (if m.autoRemove then w.disk - {name} else w.disk[name := Settled(m)])
              && w'.procs == w.procs[name := ProcsOf(w', name)] && StoppedProcesses(w, name, ProcsOf(w', name), c)
  {
    if name in w.disk && c.refresh {
      var p := ProcsOf(w, name);
      var m := Refreshed(w.disk[name], p);
      BegunExactly(w, name, m, c);
      SameReleases(w.host, w.disk, name, m.(paused := false), w.disk[name], c.cleanup);
      if m.paused ==> AllReached(p, c) { ProcessesAfterStop(w, name, c); }
    }
  }

  lemma ProcessesAfterStop(w: World, name: string, c: Calls)
    requires name in w.disk && (w.disk[name].paused && !HasEnded(w, name) ==> AllReached(ProcsOf(w, name), c))
    ensures var m := Refreshed(w.disk[name], ProcsOf(w, name));
            StoppedProcesses(w, name, AfterStop(StopExecs(Resume(m, ProcsOf(w, name), c).procs, true, c.execsKilled),
                                                w.disk[name].pid, c), c)
  {
    var p := ProcsOf(w, name);
    var m := Refreshed(w.disk[name], p);
    AllSignalledExactly(p, ContinueSignal, c);
    if m.paused { SignalPutsAll(p, ContinueSignal, c.resolve, c.undelivered); }
  }

  lemma BegunExactly(w: World, name: string, m: Meta, c: Calls)
    ensures var out, p := StopBegun(w, name, m, c), ProcsOf(w, name);
            && (out.ok <==>
                  && (m.paused ==> AllReached(p, c)) && c.stopExec
                  && (m.pid ==> c.alive && (p.launcher ==> c.terminate))
                  && Releases(w.host, w.disk, name, m.(paused := false), c.cleanup) && StopCompletes(m, c))
            && (out.ok ==>
                  && out.world.host == HostWithout(w.host, w.disk, name, m.(paused := false))
                  && out.world.foreground == w.foreground
                  && out.world.disk == (if m.autoRemove then w.disk - {name} else w.disk[name := Settled(m)])
                  && out.world.procs == w.procs[name := ProcsOf(out.world, name)]
                  && ProcsOf(out.world, name)
                     == AfterStop(StopExecs(Resume(m, p, c).procs, true, c.execsKilled), m.pid, c))
  {
    var p := ProcsOf(w, name);
    AllSignalledExactly(p, ContinueSignal, c);
    SameDead(p, ContinueSignal, c.resolve, c.undelivered);
    if Resume(m, p, c).ok && c.stopExec {
      var q := StopExecs(Resume(m, p, c).procs, c.stopExec, c.execsKilled);
      var w1 := WithProcs(w, name, q);
      ResumedExactly(w1, name, m.(paused := false), c);
    }
  }

  function AfterStop(p: Processes, detached: bool, c: Calls): Processes {
    if detached then Terminated(p, c) else p
  }

  /** The record without the resources, and refreshed. */
  function Cleared(m: Meta, ended: bool): Meta {
    (if ended then Ended(m) else m).(pfAnchor := None, pfToken := None, net := None)
  }

  /** Stop comes to write the record. */
  predicate StopWrites(w: World, name: string, c: Calls) {
    && name in w.disk && c.refresh && StopReaches(w, name, c)
    && Releases(w.host, w.disk, name, w.disk[name], c.cleanup) && c.write
    && if w.disk[name].pid then c.refreshAgain else w.disk[name].stopped
  }

  /** What becomes of the records, whether stop succeeds or not: they stay as they are until all has been given back;
      then the container's is settled, or gone if it was to be removed and could be. */
  lemma StopRecordsExactly(w: World, name: string, c: Calls)
    ensures Stop(w, name, c).world.disk
            == if !StopWrites(w, name, c) then w.disk
               else if w.disk[name].autoRemove && c.remove then w.disk - {name}
               else w.disk[name := if w.disk[name].pid then Settled(w.disk[name])
                                   else Cleared(w.disk[name], HasEnded(w, name)).(paused := false)]
  {
    if name in w.disk && c.refresh {
      var m := Refreshed(w.disk[name], ProcsOf(w, name));
      BegunRecords(w, name, m, c);
      SameReleases(w.host, w.disk, name, m.(paused := false), w.disk[name], c.cleanup);
    }
  }

  lemma BegunRecords(w: World, name: string, m: Meta, c: Calls)
    ensures var p, b := ProcsOf(w, name), m.(paused := false);
            StopBegun(w, name, m, c).world.disk
            == if !((m.paused ==> AllReached(p, c)) && c.stopExec && (m.pid ==> c.alive && (p.launcher ==> c.terminate))
                    && Releases(w.host, w.disk, name, b, c.cleanup) && c.write
                    && if m.pid then c.refreshAgain else m.stopped) then w.disk
               else if m.autoRemove && c.remove then w.disk - {name}
               else w.disk[name := if m.pid then Settled(m) else Cleared(b, false)]
  {
    var p, b := ProcsOf(w, name), m.(paused := false);
    AllSignalledExactly(p, ContinueSignal, c);
    SameDead(p, ContinueSignal, c.resolve, c.undelivered);
    if Resume(m, p, c).ok && c.stopExec {
      var w1 := WithProcs(w, name, StopExecs(Resume(m, p, c).procs, c.stopExec, c.execsKilled));
      if m.pid ==> c.alive && (p.launcher ==> c.terminate) { ResumedRecords(w1, name, b, c); }
    }
  }

  lemma ResumedRecords(w: World, name: string, m: Meta, c: Calls)
    requires !m.paused && (m.pid ==> c.alive && (ProcsOf(w, name).launcher ==> c.terminate))
    ensures StopResumed(w, name, m, c).world.disk
            == if !(Releases(w.host, w.disk, name, m, c.cleanup) && c.write
                    && if m.pid then c.refreshAgain else m.stopped) then w.disk
               else if m.autoRemove && c.remove then w.disk - {name}
               else w.disk[name := if m.pid then Settled(m) else Cleared(m, false)]
  {
    CleanupSucceedsExactly(w.host, w.disk, name, m, c.cleanup);
    WrittenAndRemoved(w.disk, name, Settled(m));
    WrittenAndRemoved(w.disk, name, Cleared(m, false));
  }

  /** Running or paused, by the record as it stands. */
  predicate IsLive(w: World, name: string)
    requires name in w.disk
  {
    var m := w.disk[name];
    if m.pid then ProcsOf(w, name).launcher else !m.stopped && !m.finished
  }

  /** What each status means: a detached container's goes by its launcher and by whether it was paused; of any other the
      record says that it has been stopped, or else that it has ended, or else that it was paused. */
  lemma StatusExactly(m: Meta, launcher: bool)
    ensures StatusOf(m, launcher).IsPaused? <==> m.paused && if m.pid then launcher else !m.stopped && !m.finished
    ensures StatusOf(m, launcher).IsRunning? <==> !m.paused && if m.pid then launcher else !m.stopped && !m.finished
    ensures StatusOf(m, launcher).IsStopped? <==> !m.pid && m.stopped
    ensures StatusOf(m, launcher).IsExited? <==> if m.pid then !launcher else m.finished && !m.stopped
  {
  }

  predicate ExecsEnded(q: Processes, p: Processes) {
    && q == p.(execs := q.execs) && |q.execs| == |p.execs|
    && forall i :: 0 <= i < |q.execs| ==> q.execs[i] == Dead
  }

  /** Rm succeeds on a container that is neither running nor paused if and only if its exec children end, all its
      resources are given back and the record can be removed; on a live one if and only if it is forced, a stop succeeds
      and, unless that has removed the record already, the record can be removed. Then the record is gone, the resources
      are, and nothing else. */
  lemma RmSucceedsExactly(w: World, name: string, force: bool, c: Calls)
    ensures Rm(w, name, force, c).ok <==>
              && name in w.disk && c.status
              && if IsLive(w, name) then force && Stop(w, name, c).ok && (w.disk[name].autoRemove || c.remove)
                 else c.stopExec && Releases(w.host, w.disk, name, w.disk[name], c.cleanup) && c.remove
    ensures Rm(w, name, force, c).ok ==>
              var w', m := Rm(w, name, force, c).world, w.disk[name];
              && w'.host == HostWithout(w.host, w.disk, name, m) && w'.foreground == w.foreground
              && w'.disk == w.disk - {name} && w'.procs == w.procs[name := ProcsOf(w', name)]
              && if IsLive(w, name) then StoppedProcesses(w, name, ProcsOf(w', name), c)
                 else ExecsEnded(ProcsOf(w', name), ProcsOf(w, name))
  {
    if name in w.disk && c.status {
      var m := w.disk[name];
      if IsLive(w, name) {
        StopSucceedsExactly(w, name, c);
        WrittenAndRemoved(w.disk, name, Settled(m));
        assert w.disk - {name} - {name} == w.disk - {name};
      } else {
        var w1 := WithProcs(w, name, StopExecs(ProcsOf(w, name), c.stopExec, c.execsKilled));
        CleanupSucceedsExactly(w1.host, w1.disk, name, m, c.cleanup);
      }
    }
  }

  /** What a record that fails to be removed by rm still says. */
  lemma RmFailsExactly(w: World, name: string, force: bool, c: Calls)
    requires !Rm(w, name, force, c).ok
    ensures var w' := Rm(w, name, force, c).world;
            w'.disk == if name in w.disk && c.status && IsLive(w, name) && force then Stop(w, name, c).world.disk
                       else w.disk
  {
  }

  /** A turn of ps comes to the end of what it has to do for a container that is neither running nor paused. */
  predicate PsClears(w: World, name: string, c: Calls)
    requires name in w.disk
  {
    && c.refresh && c.status && !(IsLive(w, name) && !HasEnded(w, name)) && c.stopExec
    && Releases(w.host, w.disk, name, w.disk[name], c.cleanup)
    && (HasEnded(w, name) || HasResources(w.disk[name]) ==> c.write)
  }

  /** A turn of ps passes over what has no record, and leaves a live container exactly as it is. Of any other it ends
      the exec children, gives all its resources back, writes so if there is anything to write and, if asked to, removes
      the record; and it succeeds if and only if all of that does. */
  lemma PsOneSucceedsExactly(w: World, name: string, c: Calls)
    ensures name !in w.disk ==> PsOne(w, name, c) == Out(w, true)
    ensures name in w.disk && IsLive(w, name) && !HasEnded(w, name) ==>
              PsOne(w, name, c) == Out(w, c.refresh && c.status)
    ensures name in w.disk && !(IsLive(w, name) && !HasEnded(w, name)) ==>
              var out, m := PsOne(w, name, c), w.disk[name];
              && (out.ok <==> PsClears(w, name, c) && (m.autoRemove ==> c.remove))
              && out.world.disk == (if !PsClears(w, name, c) then w.disk
                                    else if m.autoRemove && c.remove then w.disk - {name}
                                    else w.disk[name := Cleared(m, HasEnded(w, name))])
              && (out.ok ==>
                    && out.world.host == HostWithout(w.host, w.disk, name, m) && out.world.foreground == w.foreground
                    && out.world.procs == w.procs[name := ProcsOf(out.world, name)]
                    && ExecsEnded(ProcsOf(out.world, name), ProcsOf(w, name)))
  {
    if name in w.disk && !(IsLive(w, name) && !HasEnded(w, name)) && c.refresh && c.status && c.stopExec {
      var p := ProcsOf(w, name);
      var m := Refreshed(w.disk[name], p);
      var w1 := WithProcs(w, name, StopExecs(p, c.stopExec, c.execsKilled));
      PsDeadExactly(w1, name, m, HasEnded(w, name), c);
      SameReleases(w.host, w.disk, name, m, w.disk[name], c.cleanup);
    }
  }

  lemma PsDeadExactly(w: World, name: string, m: Meta, changed: bool, c: Calls)
    requires name in w.disk && (!changed ==> m == w.disk[name])
    ensures var out := PsDead(w, name, m, changed, c);
            var clears := Releases(w.host, w.disk, name, m, c.cleanup) && (changed || HasResources(m) ==> c.write);
            && (out.ok <==> clears && (m.autoRemove ==> c.remove))
            && out.world.disk == (if !clears then w.disk
                                  else if m.autoRemove && c.remove then w.disk - {name}
                                  else w.disk[name := m.(pfAnchor := None, pfToken := None, net := None)])
            && (out.ok ==> out.world.host == HostWithout(w.host, w.disk, name, m) && out.world.procs == w.procs
                           && out.world.foreground == w.foreground)
  {
    CleanupSucceedsExactly(w.host, w.disk, name, m, c.cleanup);
    var bare := m.(pfAnchor := None, pfToken := None, net := None);
    WrittenAndRemoved(w.disk, name, bare);
    assert !changed && !HasResources(m) ==> bare == w.disk[name] && w.disk[name := bare] == w.disk;
  }

  /** Where the exec children of a container that is not live cannot all be ended, rm and ps fail before anything else
      is touched, and the children that could be ended are. */
  lemma ExecsInTheWay(w: World, name: string, force: bool, c: Calls)
    requires name in w.disk && c.status && c.refresh && !c.stopExec && !IsLive(w, name)
    ensures Rm(w, name, force, c) == PsOne(w, name, c) && !Rm(w, name, force, c).ok
    ensures var w', p := Rm(w, name, force, c).world, ProcsOf(w, name);
            && w' == w.(procs := w.procs[name := p.(execs := ProcsOf(w', name).execs)])
            && |ProcsOf(w', name).execs| == |p.execs|
            && forall i :: 0 <= i < |p.execs| ==>
                 ProcsOf(w', name).execs[i] == if i in c.execsKilled then Dead else p.execs[i]
  {
  }

  lemma FinishRecordExactly(w: World, name: string, m: Meta, c: Calls)
    ensures var out, k := FinishRecord(w, name, m, c), c.cleanup;
            var released := NetworkReleases(w.host.ifaces, w.disk, name, m, k);
            && (out.ok <==> c.write && Releases(w.host, w.disk, name, m, k) && (m.autoRemove ==> c.remove))
            && out.world.foreground == w.foreground && out.world.procs == w.procs
            && out.world.disk == (if !c.write then w.disk
                                  else if Releases(w.host, w.disk, name, m, k) && m.autoRemove && c.remove
                                  then w.disk - {name}
                                  else w.disk[name := m.(pfAnchor := if PFReleases(m, k) then None else m.pfAnchor,
                                                         pfToken := if PFReleases(m, k) then None else m.pfToken,
                                                         net := if released then None else m.net)])
            && (out.ok ==> out.world.host == HostWithout(w.host, w.disk, name, m))
  {
    CleanupSucceedsExactly(w.host, w.disk, name, m, c.cleanup);
    WrittenAndRemoved(w.disk, name, Cleanup(w.host, w.disk, name, m, c.cleanup).meta);
  }

  /** A foreground run ends well if and only if it was under way, its resources are given back, the record is written
      and, if asked for, removed. The record says that the container has stopped, and whether it is known how it ended,
      even when the resources could not be given back; then it still names those that could not. */
  lemma FinishSucceedsExactly(w: World, name: string, exitKnown: bool, c: Calls)
    ensures Finish(w, name, exitKnown, c).ok <==>
              && name in w.foreground && c.write && Releases(w.host, w.disk, name, w.foreground[name], c.cleanup)
              && (w.foreground[name].autoRemove ==> c.remove)
    ensures name in w.foreground ==>
              var out, m, k := Finish(w, name, exitKnown, c), w.foreground[name], c.cleanup;
              var released := NetworkReleases(w.host.ifaces, w.disk, name, m, k);
              && out.world.foreground == w.foreground - {name}
              && out.world.procs == w.procs[name := ProcsOf(w, name).(workload := Dead, record := exitKnown)]
              && out.world.disk == (if !c.write then w.disk
                                    else if Releases(w.host, w.disk, name, m, k) && m.autoRemove && c.remove
                                    then w.disk - {name}
                                    else w.disk[name := m.(pid := false, launcherStarted := false, stopped := true,
                                                           finished := m.finished || exitKnown,
                                                           paused := m.paused && !exitKnown,
                                                           pfAnchor := if PFReleases(m, k) then None else m.pfAnchor,
                                                           pfToken := if PFReleases(m, k) then None else m.pfToken,
                                                           net := if released then None else m.net)])
              && (out.ok ==> out.world.host == HostWithout(w.host, w.disk, name, m))
  {
    if name in w.foreground {
      var m := FinishedMeta(w.foreground[name], exitKnown);
      var ended := ProcsOf(w, name).(workload := Dead, record := exitKnown);
      FinishRecordExactly(WithProcs(w.(foreground := w.foreground - {name}), name, ended), name, m, c);
      SameReleases(w.host, w.disk, name, m, w.foreground[name], c.cleanup);
    }
  }

  /** The loop of ps takes the containers in turn, each in the world the one before left, up to the first failure. */
  lemma {:induction false} PsInTurn(w: World, a: seq<string>, b: seq<string>, calls: string -> Calls, n: string)
    ensures Ps(w, [n], calls) == PsOne(w, n, calls(n))
    ensures Ps(w, a + b, calls) == if Ps(w, a, calls).ok then Ps(Ps(w, a, calls).world, b, calls) else Ps(w, a, calls)
    decreases |a|
  {
    var one := PsOne(w, n, calls(n));
    assert [n][1..] == [] && Ps(one.world, [], calls) == Out(one.world, true);
    if a == [] {
      assert a + b == b;
    } else {
      assert (a + b)[1..] == a[1..] + b;
      PsInTurn(PsOne(w, a[0], calls(a[0])).world, a[1..], b, calls, n);
    }
  }
}
