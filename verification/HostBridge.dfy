/** The lifetime of the shared host bridge. */
module HostBridge {
  import opened Text
  import opened Network
  import opened Lifecycle
  import opened Ledger
  import opened LedgerRuns
  import opened Cleanings

  ghost predicate Refers(disk: Disk, n: string) {
    n in disk && RefersTo(disk[n], HOST_BRIDGE)
  }

  /** The metadata of `n` says that Macker made the bridge. */
  ghost predicate Claims(disk: Disk, n: string) {
    Refers(disk, n) && disk[n].net.value.hostOwned
  }

  ghost predicate BridgeIsOurs(h: Host) {
    HOST_BRIDGE in h.ifaces && h.ifaces[HOST_BRIDGE].mine
  }

  ghost predicate BridgeIsForeign(h: Host) {
    HOST_BRIDGE in h.ifaces && !h.ifaces[HOST_BRIDGE].mine
  }

  /** A detached container whose launcher lives, or a foreground run in progress. */
  ghost predicate Engaged(w: World, n: string) {
    n in w.foreground || (n in w.disk && w.disk[n].pid && ProcsOf(w, n).launcher)
  }

  /** A bridge of Macker's own is claimed by somebody; claims are about that bridge, other references about a foreign
      one, which is there; and while a container is engaged the bridge it refers to exists. */
  ghost predicate BridgeInv(w: World) {
    && (BridgeIsOurs(w.host) ==> exists n :: Claims(w.disk, n))
    && (forall n :: Claims(w.disk, n) ==> !BridgeIsForeign(w.host))
    && (forall n :: Refers(w.disk, n) && !Claims(w.disk, n) ==> BridgeIsForeign(w.host))
    && (forall n :: Refers(w.disk, n) && Engaged(w, n) ==> HOST_BRIDGE in w.host.ifaces)
  }

  /** The bridge is there, and the same, before and after, or absent before and after. */
  ghost predicate BridgeSame(h: Host, h': Host) {
    && (HOST_BRIDGE in h.ifaces <==> HOST_BRIDGE in h'.ifaces)
    && (HOST_BRIDGE in h.ifaces ==> h'.ifaces[HOST_BRIDGE] == h.ifaces[HOST_BRIDGE])
  }

  /** A step that cleans up at most the container `name`, which is then no longer engaged: the bridge goes only on its
      claim and when no other metadata refers to it, and the claim goes only with the bridge or while others refer. */
  ghost predicate BridgeStep(w: World, w': World, name: string) {
    && (forall n :: n != name ==> (n in w'.disk <==> n in w.disk) && RecordOf(w'.disk, n) == RecordOf(w.disk, n))
    && (name in w'.disk ==> w'.disk[name].net.None? || (name in w.disk && w'.disk[name].net == w.disk[name].net))
    && (BridgeSame(w.host, w'.host)
        || (HOST_BRIDGE !in w'.host.ifaces && Claims(w.disk, name) && !InUse(w.disk, name, HOST_BRIDGE)
                && !Engaged(w', name)))
    && (Claims(w.disk, name) && !Claims(w'.disk, name) ==>
            HOST_BRIDGE !in w'.host.ifaces || InUse(w.disk, name, HOST_BRIDGE))
    && forall n :: Engaged(w', n) ==> Engaged(w, n)
  }

  lemma OtherReference(w: World, w': World, name: string, n: string)
    requires BridgeStep(w, w', name) && Refers(w'.disk, n)
    ensures Refers(w.disk, n) && w'.disk[n].net == w.disk[n].net
  {
    assert n != name ==> RecordOf(w'.disk, n) == RecordOf(w.disk, n);
  }

  lemma BridgeStepKeeps(w: World, w': World, name: string)
    requires BridgeInv(w) && BridgeStep(w, w', name)
    ensures BridgeInv(w')
  {
    forall n | Refers(w'.disk, n)
      ensures Refers(w.disk, n) && (Claims(w'.disk, n) <==> Claims(w.disk, n))
    {
      OtherReference(w, w', name, n);
    }
    if BridgeIsOurs(w'.host) {
      assert BridgeIsOurs(w.host);
      var n :| Claims(w.disk, n);
      assert n != name ==> RecordOf(w'.disk, n) == RecordOf(w.disk, n);
      if !Claims(w'.disk, n) {
        var m :| m in w.disk && m != name && RefersTo(w.disk[m], HOST_BRIDGE);
        assert Claims(w.disk, m);
        assert RecordOf(w'.disk, m) == RecordOf(w.disk, m);
        assert Claims(w'.disk, m);
      }
    }
    forall n | Refers(w'.disk, n) && !Claims(w'.disk, n)
      ensures BridgeIsForeign(w'.host)
    {
      assert BridgeIsForeign(w.host);
    }
    forall n | Refers(w'.disk, n) && Engaged(w', n)
      ensures HOST_BRIDGE in w'.host.ifaces
    {
      assert HOST_BRIDGE in w.host.ifaces;
      assert n != name && HOST_BRIDGE !in w'.host.ifaces ==> InUse(w.disk, name, HOST_BRIDGE);
    }
  }

  /** What one cleanup does about the bridge. */
  ghost predicate BridgeCleaned(disk: Disk, h: Host, name: string, m: Meta, done: Cleaned) {
    && (BridgeSame(h, done.host)
        || (HOST_BRIDGE !in done.host.ifaces && RefersTo(m, HOST_BRIDGE) && m.net.value.hostOwned
                && !InUse(disk, name, HOST_BRIDGE)))
    && (done.meta.net == m.net || done.meta.net.None?)
    && (RefersTo(m, HOST_BRIDGE) && m.net.value.hostOwned && done.meta.net.None? ==>
          HOST_BRIDGE !in done.host.ifaces || InUse(disk, name, HOST_BRIDGE))
  }

  lemma NetworkBridgeEffect(h: Host, disk: Disk, name: string, config: NetConfig, c: CleanupCalls)
    requires config.ifaceOwned ==> config.iface != HOST_BRIDGE
    requires config.hostOwned ==> config.hostInterface == HOST_BRIDGE
    ensures var net := CleanupNetwork(h, disk, name, config, c);
            && (BridgeSame(h, net.host)
                || (HOST_BRIDGE !in net.host.ifaces && config.hostOwned && !InUse(disk, name, HOST_BRIDGE)))
            && (config.hostOwned && net.ok ==> HOST_BRIDGE !in net.host.ifaces || InUse(disk, name, HOST_BRIDGE))
  {
    var first := CleanupIface(h, config, c);
    assert BridgeSame(h, first.host);
  }

  lemma CleanupBridgeEffect(w: World, name: string, m: Meta, c: CleanupCalls)
    requires Sound(w.disk) && name in w.disk && SameResources(m, w.disk[name])
    ensures BridgeCleaned(w.disk, w.host, name, m, Cleanup(w.host, w.disk, name, m, c))
  {
    CleanedFields(w.host, w.disk, name, m, c);
    if m.net.Some? {
      var config := m.net.value;
      assert OwnsOnlyTheBridge(w.disk[name]);
      if config.ifaceOwned {
        assert NamesIface(w.disk, name, config.iface);
        SlotIsNotBridge(w, name, config.iface);
      }
      var pf := CleanupPF(w.host, m, c);
      NetworkBridgeEffect(pf.host, w.disk, name, config, c);
      CleanedAfterNetwork(w.disk, w.host, name, m, Cleanup(w.host, w.disk, name, m, c),
          CleanupNetwork(pf.host, w.disk, name, config, c));
    }
  }

  lemma CleanedAfterNetwork(disk: Disk, h: Host, name: string, m: Meta, done: Cleaned, net: HostOut)
    requires m.net.Some? && done.host == net.host && done.meta.net == (if net.ok then None else m.net)
    requires var config := m.net.value;
             && (config.hostOwned ==> config.hostInterface == HOST_BRIDGE)
             && (BridgeSame(h, net.host)
                 || (HOST_BRIDGE !in net.host.ifaces && config.hostOwned && !InUse(disk, name, HOST_BRIDGE)))
             && (config.hostOwned && net.ok ==> HOST_BRIDGE !in net.host.ifaces || InUse(disk, name, HOST_BRIDGE))
    ensures BridgeCleaned(disk, h, name, m, done)
  {
  }

  /** Nobody is engaged who was not before. */
  ghost predicate NoNewEngagement(w: World, w': World) {
    forall n :: Engaged(w', n) ==> Engaged(w, n)
  }

  /** Cleaning up one container that is not engaged afterwards. */
  lemma CleaningIsBridgeStep(w: World, w': World, name: string, cleaning: Cleaning, c: CleanupCalls)
    requires Sound(w.disk) && CleansAs(w, w', name, cleaning, c) && NoNewEngagement(w, w')
    requires cleaning.reached ==> !Engaged(w', name)
    ensures BridgeStep(w, w', name)
  {
    if cleaning.reached {
      CleanupBridgeEffect(w, name, cleaning.meta, c);
      CleanedNetwork(w, name, cleaning.meta, c);
    }
  }

  /** Processes change, and at most fewer containers are engaged. */
  ghost predicate OnlyProcesses(w: World, w': World) {
    w'.disk == w.disk && w'.host == w.host && forall n :: Engaged(w', n) ==> Engaged(w, n)
  }

  lemma OnlyProcessesKeeps(w: World, w': World)
    requires BridgeInv(w) && OnlyProcesses(w, w')
    ensures BridgeInv(w')
  {
    assert forall n :: Refers(w'.disk, n) <==> Refers(w.disk, n);
    assert forall n :: Claims(w'.disk, n) <==> Claims(w.disk, n);
  }

  /** A rewrite that leaves the network alone and engages nobody. */
  lemma RewriteKeepsBridge(w: World, name: string, b: Meta)
    requires BridgeInv(w) && name in w.disk && b.net == w.disk[name].net && (b.pid ==> w.disk[name].pid)
    ensures BridgeInv(WithMeta(w, name, b))
  {
    BridgeStepKeeps(w, WithMeta(w, name, b), name);
  }

  lemma BegunKeepsBridge(w: World, name: string, c: Calls)
    requires BridgeInv(w)
    ensures BridgeInv(Begun(w, name, c).world)
  {
    if name in w.disk {
      RewriteKeepsBridge(w, name, ApplyExit(w.disk[name]));
    }
  }

  lemma SuspendKeepsBridge(w: World, name: string, p: Processes, b: Meta)
    requires BridgeInv(w) && name in w.disk && b.net == w.disk[name].net && b.pid == w.disk[name].pid
    requires p.launcher ==> ProcsOf(w, name).launcher
    ensures BridgeInv(WithProcs(w, name, p)) && BridgeInv(WithMeta(WithProcs(w, name, p), name, b))
  {
    OnlyProcessesKeeps(w, WithProcs(w, name, p));
    RewriteKeepsBridge(WithProcs(w, name, p), name, b);
  }

  lemma SignalKeepsFlags(p: Processes, signal: Signal, resolve: bool, undelivered: set<nat>)
    ensures var q := SignalGroups(p, signal, resolve, undelivered).procs;
             q.launcher == p.launcher && q.record == p.record
  {
  }

  lemma PauseKeepsBridge(w: World, name: string, c: Calls)
    requires BridgeInv(w)
    ensures BridgeInv(Pause(w, name, c).world)
  {
    BegunKeepsBridge(w, name, c);
    var w1 := Begun(w, name, c).world;
    if name in w1.disk {
      var p := ProcsOf(w1, name);
      var sent := SignalGroups(p, StopSignal, c.resolve, c.undelivered).procs;
      SignalKeepsFlags(p, StopSignal, c.resolve, c.undelivered);
      SignalKeepsFlags(sent, ContinueSignal, c.resolve, {});
      SuspendKeepsBridge(w1, name, sent, w1.disk[name].(paused := true));
      SuspendKeepsBridge(w1, name, SignalGroups(sent, ContinueSignal, c.resolve, {}).procs, w1.disk[name]);
    }
  }

  lemma UnpauseKeepsBridge(w: World, name: string, c: Calls)
    requires BridgeInv(w)
    ensures BridgeInv(Unpause(w, name, c).world)
  {
    BegunKeepsBridge(w, name, c);
    var w1 := Begun(w, name, c).world;
    if name in w1.disk {
      var p := ProcsOf(w1, name);
      var sent := SignalGroups(p, ContinueSignal, c.resolve, c.undelivered).procs;
      SignalKeepsFlags(p, ContinueSignal, c.resolve, c.undelivered);
      SignalKeepsFlags(sent, StopSignal, c.resolve, {});
      SuspendKeepsBridge(w1, name, sent, w1.disk[name].(paused := false));
      SuspendKeepsBridge(w1, name, SignalGroups(sent, StopSignal, c.resolve, {}).procs, w1.disk[name]);
    }
  }

  /** Of one container's engagement, when nothing else changes. */
  lemma OneEngagement(w: World, w': World, name: string)
    requires TouchesOnly(w, w', name)
    requires name in w'.disk && w'.disk[name].pid && ProcsOf(w', name).launcher ==>
               name in w.disk && w.disk[name].pid && ProcsOf(w, name).launcher
    ensures NoNewEngagement(w, w')
  {
    forall n | Engaged(w', n)
      ensures Engaged(w, n)
    {
      assert n != name ==> RecordOf(w'.disk, n) == RecordOf(w.disk, n) && ProcsOf(w', n) == ProcsOf(w, n);
    }
  }

  lemma CleanupKeepsPid(h: Host, disk: Disk, name: string, m: Meta, c: CleanupCalls)
    ensures Cleanup(h, disk, name, m, c).meta.pid == m.pid
  {
    CleanedFields(h, disk, name, m, c);
  }

  /** The container's record asks for a launcher that is there. */
  ghost predicate Attached(w: World, name: string) {
    name in w.disk && w.disk[name].pid && ProcsOf(w, name).launcher
  }

  lemma StopDetachedDetaches(w: World, name: string, m: Meta, p: Processes, c: Calls)
    requires !ProcsOf(w, name).launcher
    ensures !Attached(StopDetached(w, name, m, p, c).world, name)
  {
  }

  lemma StopAgainDetaches(w: World, name: string, m: Meta, c: Calls)
    requires name in w.disk && !m.pid && !w.disk[name].pid
    ensures !Attached(StopAgain(w, name, m, c).world, name)
  {
    CleanupKeepsPid(w.host, w.disk, name, m, c.cleanup);
  }

  lemma StopResumedDetaches(w: World, name: string, m: Meta, c: Calls)
    requires name in w.disk && m.pid == w.disk[name].pid
    ensures Attached(StopResumed(w, name, m, c).world, name) ==> Attached(w, name)
    ensures (if m.pid then c.alive && (ProcsOf(w, name).launcher ==> c.terminate) else m.stopped) ==>
              !Attached(StopResumed(w, name, m, c).world, name)
  {
    var p := Terminated(ProcsOf(w, name), c);
    if !m.pid {
      StopAgainDetaches(w, name, m, c);
    } else if c.alive && (ProcsOf(w, name).launcher ==> c.terminate) {
      StopDetachedDetaches(WithProcs(w, name, p), name, m, p, c);
    }
  }

  lemma SignalKeepsLauncher(m: Meta, p: Processes, c: Calls)
    ensures StopExecs(Resume(m, p, c).procs, c.stopExec, c.execsKilled).launcher == p.launcher
    ensures Resume(m, p, c).procs.launcher == p.launcher
  {
    SignalKeepsFlags(p, ContinueSignal, c.resolve, c.undelivered);
  }

  lemma StopDetaches(w: World, name: string, c: Calls)
    ensures Attached(Stop(w, name, c).world, name) ==> Attached(w, name)
    ensures StopCleaning(w, name, c).reached ==> !Attached(Stop(w, name, c).world, name)
  {
    if name in w.disk {
      var p := ProcsOf(w, name);
      var m := Refreshed(w.disk[name], p);
      SignalKeepsLauncher(m, p, c);
      var w1 := WithProcs(w, name, StopExecs(Resume(m, p, c).procs, c.stopExec, c.execsKilled));
      StopResumedDetaches(w1, name, m.(paused := false), c);
    }
  }

  /** A pending foreground run has nothing that stop would clean. */
  lemma PendingIsNotStopped(w: World, name: string, c: Calls)
    requires ForegroundPending(w) && StopCleaning(w, name, c).reached
    ensures name !in w.foreground
  {
    assert name in w.foreground ==> Pending(w, name);
  }

  lemma StopDisengages(w: World, name: string, c: Calls)
    requires ForegroundPending(w)
    ensures NoNewEngagement(w, Stop(w, name, c).world)
    ensures StopCleaning(w, name, c).reached ==> !Engaged(Stop(w, name, c).world, name)
  {
    StopLeaves(w, name, c);
    StopDetaches(w, name, c);
    OneEngagement(w, Stop(w, name, c).world, name);
    if StopCleaning(w, name, c).reached { PendingIsNotStopped(w, name, c); }
  }

  lemma StopKeepsBridge(w: World, name: string, c: Calls)
    requires Inv(w) && BridgeInv(w)
    ensures BridgeInv(Stop(w, name, c).world)
  {
    StopCleans(w, name, c);
    StopDisengages(w, name, c);
    CleaningIsBridgeStep(w, Stop(w, name, c).world, name, StopCleaning(w, name, c), c.cleanup);
    BridgeStepKeeps(w, Stop(w, name, c).world, name);
  }

  lemma RmDetaches(w: World, name: string, force: bool, c: Calls)
    ensures Attached(Rm(w, name, force, c).world, name) ==> Attached(w, name)
    ensures RmCleaning(w, name, force, c).reached ==> !Attached(Rm(w, name, force, c).world, name)
  {
    StopDetaches(w, name, c);
  }

  lemma DeadIsNotPending(w: World, name: string)
    requires ForegroundPending(w) && name in w.disk
    requires !Live(StatusOf(Refreshed(w.disk[name], ProcsOf(w, name)), ProcsOf(w, name).launcher))
             || !Live(StatusOf(w.disk[name], ProcsOf(w, name).launcher))
    ensures name !in w.foreground
  {
    assert name in w.foreground ==> Pending(w, name);
  }

  lemma RmDisengages(w: World, name: string, force: bool, c: Calls)
    requires ForegroundPending(w)
    ensures NoNewEngagement(w, Rm(w, name, force, c).world)
    ensures RmCleaning(w, name, force, c).reached ==> !Engaged(Rm(w, name, force, c).world, name)
  {
    RmLeaves(w, name, force, c);
    RmDetaches(w, name, force, c);
    OneEngagement(w, Rm(w, name, force, c).world, name);
    if RmCleaning(w, name, force, c).reached {
      if Live(StatusOf(w.disk[name], ProcsOf(w, name).launcher)) {
        PendingIsNotStopped(w, name, c);
      } else {
        DeadIsNotPending(w, name);
      }
    }
  }

  lemma RmKeepsBridge(w: World, name: string, force: bool, c: Calls)
    requires Inv(w) && BridgeInv(w)
    ensures BridgeInv(Rm(w, name, force, c).world)
  {
    var w' := Rm(w, name, force, c).world;
    RmCleans(w, name, force, c);
    RmDisengages(w, name, force, c);
    CleaningIsBridgeStep(w, w', name, RmCleaning(w, name, force, c), c.cleanup);
    BridgeStepKeeps(w, w', name);
  }

  lemma PsOneDetaches(w: World, name: string, c: Calls)
    ensures Attached(PsOne(w, name, c).world, name) ==> Attached(w, name)
    ensures PsCleaning(w, name, c).reached ==> !Attached(PsOne(w, name, c).world, name)
  {
    if name in w.disk {
      CleanupKeepsPid(w.host, w.disk, name, Refreshed(w.disk[name], ProcsOf(w, name)), c.cleanup);
    }
  }

  lemma PsOneDisengages(w: World, name: string, c: Calls)
    requires ForegroundPending(w)
    ensures NoNewEngagement(w, PsOne(w, name, c).world)
    ensures PsCleaning(w, name, c).reached ==> !Engaged(PsOne(w, name, c).world, name)
  {
    PsOneLeaves(w, name, c);
    PsOneDetaches(w, name, c);
    OneEngagement(w, PsOne(w, name, c).world, name);
    if PsCleaning(w, name, c).reached { DeadIsNotPending(w, name); }
  }

  lemma PsOneKeepsBridge(w: World, name: string, c: Calls)
    requires Inv(w) && BridgeInv(w)
    ensures BridgeInv(PsOne(w, name, c).world)
  {
    PsOneCleans(w, name, c);
    PsOneDisengages(w, name, c);
    CleaningIsBridgeStep(w, PsOne(w, name, c).world, name, PsCleaning(w, name, c), c.cleanup);
    BridgeStepKeeps(w, PsOne(w, name, c).world, name);
  }

  lemma PsOneKeepsInv(w: World, name: string, c: Calls)
    requires Inv(w)
    ensures Inv(PsOne(w, name, c).world)
  {
    PsOneIsTidy(w, name, c);
    PsOneLeaves(w, name, c);
    TidyStep(w, PsOne(w, name, c).world, name);
  }

  lemma {:induction false} PsKeepsBridge(w: World, names: seq<string>, each: string -> Calls)
    requires Inv(w) && BridgeInv(w)
    ensures BridgeInv(Ps(w, names, each).world)
    decreases |names|
  {
    if names != [] {
      var first := PsOne(w, names[0], each(names[0]));
      PsOneKeepsBridge(w, names[0], each(names[0]));
      PsOneKeepsInv(w, names[0], each(names[0]));
      if first.ok {
        PsKeepsBridge(first.world, names[1..], each);
      }
    }
  }

  lemma FinishDetaches(w: World, name: string, exitKnown: bool, c: Calls)
    requires ForegroundPending(w)
    ensures NoNewEngagement(w, Finish(w, name, exitKnown, c).world)
    ensures name in w.foreground ==> !Engaged(Finish(w, name, exitKnown, c).world, name)
  {
    if name in w.foreground {
      assert Pending(w, name);
      CleanupKeepsPid(w.host, w.disk, name, FinishedMeta(w.foreground[name], exitKnown), c.cleanup);
    }
  }

  lemma FinishKeepsBridge(w: World, name: string, exitKnown: bool, c: Calls)
    requires Inv(w) && BridgeInv(w)
    ensures BridgeInv(Finish(w, name, exitKnown, c).world)
  {
    var w' := Finish(w, name, exitKnown, c).world;
    FinishCleans(w, name, exitKnown, c);
    FinishDetaches(w, name, exitKnown, c);
    CleaningIsBridgeStep(w, w', name, FinishCleaning(w, name, exitKnown, c), c.cleanup);
    BridgeStepKeeps(w, w', name);
  }

  /** What a set-up network says about the bridge: it is there, untouched if it was there before, and claimed exactly
      when Macker made it. A network of others' making does not concern the bridge. */
  ghost predicate BridgeSetUp(w: World, r: Request, setup: Setup) {
    && setup.config.Some?
    && (HOST_BRIDGE in w.host.ifaces ==>
            HOST_BRIDGE in setup.ifaces && setup.ifaces[HOST_BRIDGE] == w.host.ifaces[HOST_BRIDGE])
    && (r.HostRequest? ==> setup.config.value.hostInterface == HOST_BRIDGE && HOST_BRIDGE in setup.ifaces
                           && setup.config.value.hostOwned == setup.ifaces[HOST_BRIDGE].mine
                           && (HOST_BRIDGE !in w.host.ifaces ==> setup.ifaces[HOST_BRIDGE].mine))
    && (r.ExternalRequest? ==> setup.ifaces == w.host.ifaces && !setup.config.value.hostOwned
                               && setup.config.value.hostInterface == r.hostInterface)
  }

  /** Run recognises its own bridge: the scan of the metadata answers what only the bridge itself could tell. */
  lemma BridgeIsRecognised(w: World, r: Request, c: RunCalls)
    requires BridgeInv(w) && SetupFor(w, r, c).config.Some?
    ensures BridgeSetUp(w, r, SetupFor(w, r, c))
  {
    if r.HostRequest? {
      var bridge := EnsureBridge(w.host.ifaces, w.disk, c);
      var i := ScanSlots(UsedInterfaces(w.disk), bridge.ifaces.Keys, 1, c.bad).index;
      SlotsAreDistinct(i, i);
      if HOST_BRIDGE in w.host.ifaces && BridgeOwned(w.disk) {
        var n :| n in w.disk && RefersTo(w.disk[n], HOST_BRIDGE) && w.disk[n].net.value.hostOwned;
        assert Claims(w.disk, n);
      }
    }
  }

  /** The bridge is as it was, or has been raised while its claimants waited for it. */
  ghost predicate BridgeSameOrRaised(w: World, h: Host, name: string) {
    BridgeSame(w.host, h) || (HOST_BRIDGE !in w.host.ifaces && BridgeIsOurs(h) && InUse(w.disk, name, HOST_BRIDGE))
  }

  lemma UndoneBridge(w: World, r: Request, setup: Setup, h: Host)
    requires Sound(w.disk) && BridgeInv(w) && r.name !in w.disk && h.ifaces == setup.ifaces && BridgeSetUp(w, r, setup)
    requires NothingNew(w, setup) || exists i :: NewSlot(w, setup, i)
    requires r.ExternalRequest? ==> r.hostInterface != HOST_BRIDGE
    ensures BridgeSameOrRaised(w, CleanupNetwork(h, w.disk, r.name, setup.config.value, ALL_SUCCEED).host, r.name)
  {
    var config := setup.config.value;
    if i :| NewSlot(w, setup, i) {
      SlotsAreDistinct(i, i);
    }
    var first := CleanupIface(h, config, ALL_SUCCEED);
    assert BridgeSame(h, first.host);
    if BridgeIsOurs(w.host) {
      var n :| Claims(w.disk, n);
      assert InUse(w.disk, r.name, HOST_BRIDGE);
    }
  }

  lemma RaisedKeepsBridge(w: World, h: Host, name: string)
    requires BridgeInv(w) && BridgeSameOrRaised(w, h, name)
    ensures BridgeInv(w.(host := h))
  {
    if !BridgeSame(w.host, h) {
      var n :| n in w.disk && n != name && RefersTo(w.disk[n], HOST_BRIDGE);
      assert Claims(w.disk, n);
    }
    assert forall n :: Engaged(w.(host := h), n) ==> Engaged(w, n);
  }

  /** One more container, engaged, with the bridge it was set up with. */
  lemma OneMoreKeepsBridge(w: World, w': World, name: string)
    requires BridgeInv(w) && name !in w.disk && name in w'.disk && w'.disk == w.disk[name := w'.disk[name]]
    requires forall n :: n != name && Engaged(w', n) ==> Engaged(w, n)
    requires HOST_BRIDGE in w.host.ifaces ==>
             HOST_BRIDGE in w'.host.ifaces && w'.host.ifaces[HOST_BRIDGE] == w.host.ifaces[HOST_BRIDGE]
    requires if Refers(w'.disk, name)
             then HOST_BRIDGE in w'.host.ifaces && (Claims(w'.disk, name) <==> BridgeIsOurs(w'.host))
                  && (HOST_BRIDGE !in w.host.ifaces ==> BridgeIsOurs(w'.host))
             else BridgeSame(w.host, w'.host)
    ensures BridgeInv(w')
  {
    forall n | n != name
      ensures Refers(w'.disk, n) <==> Refers(w.disk, n)
      ensures Claims(w'.disk, n) <==> Claims(w.disk, n)
    {
    }
    if BridgeIsOurs(w'.host) && !Refers(w'.disk, name) {
      var n :| Claims(w.disk, n);
      assert Claims(w'.disk, n);
    }
  }

  lemma StartedKeepsBridge(w: World, r: Request, setup: Setup, c: RunCalls)
    requires BridgeInv(w) && r.name !in w.disk && BridgeSetUp(w, r, setup)
    requires r.ExternalRequest? ==> r.hostInterface != HOST_BRIDGE
    ensures BridgeInv(Started(w, r, Installed(w.host.(ifaces := setup.ifaces), r, setup.config.value, c),
                 setup.config.value, c))
  {
    var h := Installed(w.host.(ifaces := setup.ifaces), r, setup.config.value, c);
    var w' := Started(w, r, h, setup.config.value, c);
    assert h.ifaces == setup.ifaces;
    assert w'.disk[r.name].net == setup.config;
    OneMoreKeepsBridge(w, w', r.name);
  }

  lemma RunKeepsBridge(w: World, r: Request, c: RunCalls)
    requires Inv(w) && BridgeInv(w)
    requires r.ExternalRequest? ==> r.hostInterface != HOST_BRIDGE
    ensures BridgeInv(Run(w, r, c).world)
  {
    var setup := SetupFor(w, r, c);
    if Acceptable(w, r) && setup.config.Some? {
      SetupShape(w, r, c);
      BridgeIsRecognised(w, r, c);
      var config, h := setup.config.value, w.host.(ifaces := setup.ifaces);
      if !c.prepare || (r.ports != [] && !c.install) {
        UndoneBridge(w, r, setup, h);
        RaisedKeepsBridge(w, Undo(h, w.disk, r, config, None), r.name);
      } else if !c.launch || !c.record {
        var m, h1 := NewMeta(r, config, c), Installed(h, r, config, c);
        UndoneBridge(w, r, setup, CleanupPF(h1, m, ALL_SUCCEED).host);
        RaisedKeepsBridge(w, Undo(h1, w.disk, r, config, Some(m)), r.name);
      } else {
        StartedKeepsBridge(w, r, setup, c);
      }
    }
  }

  lemma EnvironmentKeepsBridge(w: World, e: Event)
    requires BridgeInv(w) && EnvironmentStep(e) && NoSquatting(w, e) && SparesReferredBridge(w, e)
    ensures BridgeInv(Step(w, e))
  {
    var w' := Step(w, e);
    EnvironmentEffect(w, e);
    assert forall n :: Engaged(w', n) ==> Engaged(w, n);
    assert forall n :: Refers(w'.disk, n) <==> Refers(w.disk, n);
    assert forall n :: Claims(w'.disk, n) <==> Claims(w.disk, n);
    if !BridgeSame(w.host, w'.host) {
      assert forall n :: !Claims(w.disk, n);
      assert forall n :: !Refers(w.disk, n);
    }
  }

  /** No external container takes the bridge for its host interface. */
  ghost predicate KeepsOffBridge(w: World, e: Event) {
    e.RunEvent? && e.request.ExternalRequest? ==> e.request.hostInterface != HOST_BRIDGE
  }

  /** The bridge is left to those whose records refer to it: others take neither it nor its name. */
  ghost predicate BridgeRespected(w: World, e: Event) {
    KeepsOffBridge(w, e) && NoSquatting(w, e) && SparesReferredBridge(w, e)
  }

  lemma StepKeepsBridge(w: World, e: Event)
    requires Inv(w) && BridgeInv(w) && BridgeRespected(w, e)
    ensures BridgeInv(Step(w, e))
  {
    match e
    case RunEvent(r, c) => RunKeepsBridge(w, r, c);
    case FinishEvent(name, exitKnown, c) => FinishKeepsBridge(w, name, exitKnown, c);
    case PauseEvent(name, c) => PauseKeepsBridge(w, name, c);
    case UnpauseEvent(name, c) => UnpauseKeepsBridge(w, name, c);
    case StopEvent(name, c) => StopKeepsBridge(w, name, c);
    case RmEvent(name, force, c) => RmKeepsBridge(w, name, force, c);
    case PsEvent(names, each) => PsKeepsBridge(w, names, each);
    case _ => EnvironmentKeepsBridge(w, e);
  }

  lemma {:induction false} BridgeInvAlways(w: World, events: seq<Event>)
    requires Initial(w) && Throughout(w, events, BridgeRespected)
    ensures Inv(Execute(w, events)) && BridgeInv(Execute(w, events))
    decreases |events|
  {
    NothingLeaks(w, events);
    if events != [] {
      var before := events[..|events| - 1];
      BridgeInvAlways(w, before);
      StepKeepsBridge(Execute(w, before), events[|events| - 1]);
    }
  }

  /** The lifetime of the bridge in every run that respects it: while a container is engaged the bridge it refers to
      exists; all references agree on who made it, and rightly when it exists; and a bridge of Macker's outlives no
      reference. */
  lemma BridgeLifetime(w: World, events: seq<Event>)
    requires Initial(w) && Throughout(w, events, BridgeRespected)
    ensures var v := Execute(w, events);
            && (forall n :: Refers(v.disk, n) && Engaged(v, n) ==> HOST_BRIDGE in v.host.ifaces)
            && (forall n, m :: Refers(v.disk, n) && Refers(v.disk, m) ==> (Claims(v.disk, n) <==> Claims(v.disk, m)))
            && (HOST_BRIDGE in v.host.ifaces ==> forall n :: Refers(v.disk, n) ==>
                  (Claims(v.disk, n) <==> v.host.ifaces[HOST_BRIDGE].mine))
            && ((forall n :: !Refers(v.disk, n)) ==> !BridgeIsOurs(v.host))
  {
    BridgeInvAlways(w, events);
  }
}
