/** What each command has achieved when it says so, and what it has undone when it says not. */
module Outcomes {
  import opened Network
  import opened Lifecycle
  import opened Ledger
  import opened LedgerRuns
  import opened HostBridge
  import opened Redirects
  import opened ForeignInterfaces
  import opened BridgeClaims

  /** Nothing is owed for the container any more, unless it is gone altogether. */
  ghost predicate SettledOrGone(disk: Disk, name: string) {
    name in disk ==>
      var m := disk[name];
      !m.pid && m.stopped && !HasResources(m) && !m.autoRemove
  }

  lemma StopAgainOutcome(w: World, name: string, m: Meta, c: Calls)
    requires !m.pid && StopAgain(w, name, m, c).ok
    ensures SettledOrGone(StopAgain(w, name, m, c).world.disk, name)
  {
    CleanedFields(w.host, w.disk, name, m, c.cleanup);
  }

  lemma StopDetachedOutcome(w: World, name: string, m: Meta, p: Processes, c: Calls)
    requires StopDetached(w, name, m, p, c).ok
    ensures SettledOrGone(StopDetached(w, name, m, p, c).world.disk, name)
    ensures StopDetached(w, name, m, p, c).world.procs == w.procs
  {
    CleanupReleases(w.host, w.disk, name, m, c.cleanup);
    CleanedFields(w.host, w.disk, name, m, c.cleanup);
  }

  lemma StopResumedOutcome(w: World, name: string, m: Meta, c: Calls)
    requires StopResumed(w, name, m, c).ok
    ensures SettledOrGone(StopResumed(w, name, m, c).world.disk, name)
    ensures m.pid ==> !ProcsOf(StopResumed(w, name, m, c).world, name).launcher
  {
    if m.pid {
      var p := Terminated(ProcsOf(w, name), c);
      StopDetachedOutcome(WithProcs(w, name, p), name, m, p, c);
    } else {
      StopAgainOutcome(w, name, m, c);
    }
  }

  /** A stop that succeeds has ended the launcher and leaves a settled record, or none if it was to be removed. */
  lemma StopOutcome(w: World, name: string, c: Calls)
    requires Stop(w, name, c).ok
    ensures name in w.disk && SettledOrGone(Stop(w, name, c).world.disk, name)
    ensures w.disk[name].pid ==> !ProcsOf(Stop(w, name, c).world, name).launcher
  {
    var m := Refreshed(w.disk[name], ProcsOf(w, name));
    var sent := Resume(m, ProcsOf(w, name), c);
    var w1 := WithProcs(w, name, StopExecs(sent.procs, c.stopExec, c.execsKilled));
    assert Stop(w, name, c) == StopResumed(w1, name, m.(paused := false), c);
    StopResumedOutcome(w1, name, m.(paused := false), c);
  }

  /** An rm that succeeds has removed the record, and it does so to a live container only when forced. */
  lemma RmOutcome(w: World, name: string, force: bool, c: Calls)
    requires Rm(w, name, force, c).ok
    ensures name in w.disk && name !in Rm(w, name, force, c).world.disk
    ensures Live(StatusOf(w.disk[name], ProcsOf(w, name).launcher)) ==> force && Stop(w, name, c).ok
  {
    if Live(StatusOf(w.disk[name], ProcsOf(w, name).launcher)) && w.disk[name].autoRemove {
      StopRemoves(w, name, c);
    }
  }

  lemma StopRemoves(w: World, name: string, c: Calls)
    requires Stop(w, name, c).ok && w.disk[name].autoRemove
    ensures name !in Stop(w, name, c).world.disk
  {
    StopKeepsAutoRemove(w, name, c);
    StopOutcome(w, name, c);
  }

  lemma StopKeepsAutoRemove(w: World, name: string, c: Calls)
    requires name in w.disk
    ensures var disk := Stop(w, name, c).world.disk; name in disk ==> disk[name].autoRemove == w.disk[name].autoRemove
  {
    var m := Refreshed(w.disk[name], ProcsOf(w, name)).(paused := false);
    CleanedFields(w.host, w.disk, name, m, c.cleanup);
    StopBegunKeepsAutoRemove(w, name, Refreshed(w.disk[name], ProcsOf(w, name)), c);
  }

  lemma StopBegunKeepsAutoRemove(w: World, name: string, m: Meta, c: Calls)
    requires name in w.disk && m.autoRemove == w.disk[name].autoRemove
    ensures var disk := StopBegun(w, name, m, c).world.disk;
             name in disk ==> disk[name].autoRemove == w.disk[name].autoRemove
  {
    var sent := Resume(m, ProcsOf(w, name), c);
    var w1 := WithProcs(w, name, StopExecs(sent.procs, c.stopExec, c.execsKilled));
    CleanedFields(w1.host, w1.disk, name, m.(paused := false), c.cleanup);
    ResumedKeepsAutoRemove(w1, name, m.(paused := false), c);
  }

  lemma ResumedKeepsAutoRemove(w: World, name: string, m: Meta, c: Calls)
    requires name in w.disk && m.autoRemove == w.disk[name].autoRemove
    requires Cleanup(w.host, w.disk, name, m, c.cleanup).meta.autoRemove == m.autoRemove
    ensures var disk := StopResumed(w, name, m, c).world.disk;
             name in disk ==> disk[name].autoRemove == w.disk[name].autoRemove
  {
  }

  /** What ps leaves of a container it has dealt with. */
  ghost predicate DealtWith(w: World, n: string) {
    n in w.disk ==>
      var m := w.disk[n];
      Live(StatusOf(m, ProcsOf(w, n).launcher)) || (!HasResources(m) && !m.autoRemove)
  }

  lemma PsOneOutcome(w: World, name: string, c: Calls)
    requires PsOne(w, name, c).ok
    ensures DealtWith(PsOne(w, name, c).world, name)
  {
    if name in w.disk {
      var p := ProcsOf(w, name);
      var m := Refreshed(w.disk[name], p);
      if !Live(StatusOf(m, p.launcher)) {
        PsDeadOutcome(WithProcs(w, name, StopExecs(p, c.stopExec, c.execsKilled)), name, m,
            RefreshChanges(w.disk[name], p), c);
      }
    }
  }

  lemma PsDeadOutcome(w: World, name: string, m: Meta, changed: bool, c: Calls)
    requires name in w.disk && (!changed ==> m == w.disk[name]) && PsDead(w, name, m, changed, c).ok
    ensures DealtWith(PsDead(w, name, m, changed, c).world, name)
  {
    CleanupReleases(w.host, w.disk, name, m, c.cleanup);
    CleanedFields(w.host, w.disk, name, m, c.cleanup);
  }

  /** A ps that succeeds has dealt with every container it went through, in whatever order. */
  lemma {:induction false} PsOutcome(w: World, names: seq<string>, each: string -> Calls, n: string)
    requires Ps(w, names, each).ok && (n in names || DealtWith(w, n))
    ensures DealtWith(Ps(w, names, each).world, n)
    decreases |names|
  {
    if names != [] {
      var first := PsOne(w, names[0], each(names[0]));
      PsOneOutcome(w, names[0], each(names[0]));
      PsOneLeaves(w, names[0], each(names[0]));
      if n != names[0] {
        assert n in names ==> n in names[1..];
        assert RecordOf(first.world.disk, n) == RecordOf(w.disk, n);
      }
      PsOutcome(first.world, names[1..], each, n);
    }
  }

  /** A foreground run that ends well leaves a settled record, or none. */
  lemma FinishOutcome(w: World, name: string, exitKnown: bool, c: Calls)
    requires Finish(w, name, exitKnown, c).ok
    ensures SettledOrGone(Finish(w, name, exitKnown, c).world.disk, name)
    ensures ProcsOf(Finish(w, name, exitKnown, c).world, name).workload.Dead?
  {
    var ended := ProcsOf(w, name).(workload := Dead, record := exitKnown);
    var v := WithProcs(w.(foreground := w.foreground - {name}), name, ended);
    var m := FinishedMeta(w.foreground[name], exitKnown);
    CleanupReleases(v.host, v.disk, name, m, c.cleanup);
    CleanedFields(v.host, v.disk, name, m, c.cleanup);
  }

  /** What is left of the host when a run fails: anchors, tokens and interfaces as they were, the bridge apart. */
  ghost predicate SameButBridge(h: Host, h': Host) {
    h'.anchors == h.anchors && h'.tokens == h.tokens && h'.ifaces - {HOST_BRIDGE} == h.ifaces - {HOST_BRIDGE}
  }

  lemma UndoneInstall(w: World, r: Request, ifaces: Interfaces, config: NetConfig, c: RunCalls)
    requires Inv(w) && FreshToken(w, c.token) && r.name !in w.disk
    ensures CleanupPF(Installed(w.host.(ifaces := ifaces), r, config, c), NewMeta(r, config, c), ALL_SUCCEED).host
            == w.host.(ifaces := ifaces)
  {
    NewAnchorIsNew(w, r);
    var installed := Installed(w.host.(ifaces := ifaces), r, config, c);
    assert r.ports != [] ==> installed.anchors - {AnchorFor(r.name)} == w.host.anchors;
    assert r.ports != [] ==> installed.tokens - {c.token} == w.host.tokens;
  }

  lemma UndoneNetwork(w: World, r: Request, setup: Setup, h: Host)
    requires setup.config.Some? && h == w.host.(ifaces := setup.ifaces)
    requires r.HostRequest? ==> exists i :: NewSlot(w, setup, i)
    requires r.ExternalRequest? ==> NothingNew(w, setup)
    requires forall s :: s in w.host.ifaces ==> s in setup.ifaces && setup.ifaces[s] == w.host.ifaces[s]
    ensures SameButBridge(w.host, CleanupNetwork(h, w.disk, r.name, setup.config.value, ALL_SUCCEED).host)
  {
    var config := setup.config.value;
    var h' := CleanupNetwork(h, w.disk, r.name, config, ALL_SUCCEED).host;
    if r.HostRequest? {
      var i :| NewSlot(w, setup, i);
      SlotsAreDistinct(i, i);
      assert SlotName(i) != "" by { assert |SlotName(i)| >= |HOST_BRIDGE|; }
      var first := CleanupIface(h, config, ALL_SUCCEED);
      assert first.host.ifaces == setup.ifaces - {SlotName(i)};
      assert first.host.ifaces - {HOST_BRIDGE} == w.host.ifaces - {HOST_BRIDGE};
      assert h'.ifaces - {HOST_BRIDGE} == first.host.ifaces - {HOST_BRIDGE};
    }
  }

  /** A run that fails, at whatever point, leaves records, processes, anchors, tokens and interfaces exactly as they
      were; only the bridge may stay raised, where other records were waiting for it. */
  lemma FailedRunLeavesNothing(w: World, r: Request, c: RunCalls)
    requires Inv(w) && FreshToken(w, c.token) && !Run(w, r, c).ok
    ensures NoneStarted(w, Run(w, r, c).world) && SameButBridge(w.host, Run(w, r, c).world.host)
    ensures BridgeSameOrRaised(w, Run(w, r, c).world.host, r.name)
  {
    var setup := SetupFor(w, r, c);
    if Acceptable(w, r) && setup.config.Some? {
      UndoneInstall(w, r, setup.ifaces, setup.config.value, c);
      UndoneRun(w, r, c);
      FailedRunWith(w, r, setup.ifaces, setup.config.value, c);
    }
  }

  /** Whether PF had been installed or not, what is undone is the network. */
  lemma FailedRunWith(w: World, r: Request, ifaces: Interfaces, config: NetConfig, c: RunCalls)
    requires !RunWith(w, r, ifaces, config, c).ok
    requires CleanupPF(Installed(w.host.(ifaces := ifaces), r, config, c), NewMeta(r, config, c), ALL_SUCCEED).host
             == w.host.(ifaces := ifaces)
    ensures RunWith(w, r, ifaces, config, c).world
            == w.(host := CleanupNetwork(w.host.(ifaces := ifaces), w.disk, r.name, config, ALL_SUCCEED).host)
  {
  }

  /** Undoing the network a request has been set up with. */
  lemma UndoneRun(w: World, r: Request, c: RunCalls)
    requires r.name !in w.disk && SetupFor(w, r, c).config.Some?
    ensures var setup := SetupFor(w, r, c);
            var h' := CleanupNetwork(w.host.(ifaces := setup.ifaces), w.disk, r.name, setup.config.value,
                  ALL_SUCCEED).host;
            SameButBridge(w.host, h') && BridgeSameOrRaised(w, h', r.name)
  {
    var setup := SetupFor(w, r, c);
    var h := w.host.(ifaces := setup.ifaces);
    SetupShape(w, r, c);
    SetupOnlyAdds(w, r, c);
    UndoneNetwork(w, r, setup, h);
    if HOST_BRIDGE in w.host.ifaces {
      UndoDestroysNothingOld(w, r, setup, NewMeta(r, setup.config.value, c), h, HOST_BRIDGE);
    } else if r.HostRequest? {
      RaisedSetup(w, r, c);
      NetworkDestroysExactly(h, w.disk, r.name, NewMeta(r, setup.config.value, c), ALL_SUCCEED, HOST_BRIDGE);
    }
  }

  /** Everything goes well. */
  ghost predicate AllGoesWell(c: Calls) {
    && c.refresh && c.identity && c.resolve && c.undelivered == {} && c.stopExec && c.alive && c.terminate
    && c.refreshAgain && c.write && c.remove && c.cleanup == ALL_SUCCEED
  }

  lemma EqualHosts(h: Host, h': Host)
    requires SameButBridge(h, h') && BridgeSame(h, h')
    ensures h' == h
  {
    forall s
      ensures s in h'.ifaces <==> s in h.ifaces
      ensures s in h.ifaces ==> h'.ifaces[s] == h.ifaces[s]
    {
      assert s != HOST_BRIDGE ==> (s in h.ifaces <==> s in h.ifaces - {HOST_BRIDGE});
      assert s != HOST_BRIDGE ==> (s in h'.ifaces <==> s in h'.ifaces - {HOST_BRIDGE});
      assert s != HOST_BRIDGE && s in h.ifaces ==> (h'.ifaces - {HOST_BRIDGE})[s] == (h.ifaces - {HOST_BRIDGE})[s];
    }
    assert h'.ifaces == h.ifaces;
  }

  lemma CleanupOfStarted(w: World, r: Request, c: RunCalls)
    requires Inv(w) && FreshToken(w, c.token) && r.name !in w.disk && SetupFor(w, r, c).config.Some?
    requires HOST_BRIDGE in w.host.ifaces || !InUse(w.disk, r.name, HOST_BRIDGE)
    ensures var setup := SetupFor(w, r, c);
            var m := NewMeta(r, setup.config.value, c);
            var done := Cleanup(Installed(w.host.(ifaces := setup.ifaces), r, setup.config.value, c),
                  w.disk[r.name := m], r.name, m, ALL_SUCCEED);
            done.ok && done.host == w.host
  {
    var setup := SetupFor(w, r, c);
    var config, h := setup.config.value, w.host.(ifaces := setup.ifaces);
    var m := NewMeta(r, config, c);
    UndoneInstall(w, r, setup.ifaces, config, c);
    UndoneRun(w, r, c);
    OwnRecordIsPassedOver(h, w.disk, r.name, m, config, ALL_SUCCEED);
    CleanedFields(Installed(h, r, config, c), w.disk[r.name := m], r.name, m, ALL_SUCCEED);
    AllSucceeds(h, w.disk, r.name, config);
    EqualHosts(w.host, CleanupNetwork(h, w.disk, r.name, config, ALL_SUCCEED).host);
  }

  lemma AllSucceeds(h: Host, disk: Disk, name: string, config: NetConfig)
    ensures CleanupNetwork(h, disk, name, config, ALL_SUCCEED).ok
  {
  }

  /** The host is as in `w`, and so are the records of all others. */
  ghost predicate Restored(w: World, out: Out, name: string) {
    out.ok && out.world.host == w.host && out.world.disk - {name} == w.disk
  }

  /** `name` alone has been added, detached and running, and cleaning it up gives the host of `w` back. */
  ghost predicate FreshlyStarted(w: World, started: World, name: string, m: Meta) {
    && name !in w.disk && started.disk == w.disk[name := m] && m.pid && !m.paused
    && ProcsOf(started, name) == Processes(true, Running, [], false)
    && var done := Cleanup(started.host, started.disk, name, m, ALL_SUCCEED); done.ok && done.host == w.host
  }

  lemma StopRestores(w: World, started: World, name: string, m: Meta, k: Calls)
    requires FreshlyStarted(w, started, name, m) && AllGoesWell(k)
    ensures Restored(w, Stop(started, name, k), name)
    ensures m.autoRemove ==> Stop(started, name, k).world.disk == w.disk
  {
    var p := Terminated(ProcsOf(started, name), k);
    StopTerminates(started, name, m, k);
    DetachedRestores(w, WithProcs(started, name, p), name, m, p, k);
  }

  lemma StopTerminates(started: World, name: string, m: Meta, k: Calls)
    requires name in started.disk && started.disk[name] == m && m.pid && !m.paused && AllGoesWell(k)
    requires ProcsOf(started, name) == Processes(true, Running, [], false)
    ensures var p := Terminated(ProcsOf(started, name), k);
            Stop(started, name, k) == StopDetached(WithProcs(started, name, p), name, m, p, k)
  {
    var p := ProcsOf(started, name);
    assert StopExecs(p, true, k.execsKilled) == p && m.(paused := false) == m;
    var w1 := WithProcs(started, name, p);
    assert w1.procs[name := Terminated(p, k)] == started.procs[name := Terminated(p, k)];
  }

  lemma DetachedRestores(w: World, v: World, name: string, m: Meta, p: Processes, k: Calls)
    requires name !in w.disk && v.disk == w.disk[name := m] && AllGoesWell(k)
    requires var done := Cleanup(v.host, v.disk, name, m, ALL_SUCCEED); done.ok && done.host == w.host
    ensures Restored(w, StopDetached(v, name, m, p, k), name)
    ensures m.autoRemove ==> StopDetached(v, name, m, p, k).world.disk == w.disk
  {
    assert v.disk - {name} == w.disk;
  }

  lemma RmRestores(w: World, started: World, name: string, m: Meta, k: Calls)
    requires FreshlyStarted(w, started, name, m) && AllGoesWell(k) && k.status
    requires Restored(w, Stop(started, name, k), name) && (m.autoRemove ==> Stop(started, name, k).world.disk == w.disk)
    ensures Restored(w, Rm(started, name, true, k), name) && Rm(started, name, true, k).world.disk == w.disk
  {
    var stopped := Stop(started, name, k);
    assert Rm(started, name, true, k) == if m.autoRemove then stopped else Remove(stopped.world, name, true);
    assert w.disk - {name} == w.disk;
  }

  lemma RunStartsFreshly(w: World, r: Request, c: RunCalls)
    requires Inv(w) && FreshToken(w, c.token) && r.detach && Run(w, r, c).ok
    requires HOST_BRIDGE in w.host.ifaces || !InUse(w.disk, r.name, HOST_BRIDGE)
    ensures SetupFor(w, r, c).config.Some?
    ensures FreshlyStarted(w, Run(w, r, c).world, r.name, NewMeta(r, SetupFor(w, r, c).config.value, c))
  {
    var setup := SetupFor(w, r, c);
    CleanupOfStarted(w, r, c);
    assert Run(w, r, c).world == Started(w, r, Installed(w.host.(ifaces := setup.ifaces), r, setup.config.value, c),
        setup.config.value, c);
  }

  /** Running a detached container and stopping it, all going well, gives the host back exactly as it was, and rm (or
      automatic removal) then gives back the records too: run conserves what it takes. */
  lemma RunThenStopRestores(w: World, r: Request, c: RunCalls, k: Calls)
    requires Inv(w) && FreshToken(w, c.token) && r.detach && Run(w, r, c).ok && AllGoesWell(k)
             && k.status
    requires HOST_BRIDGE in w.host.ifaces || !InUse(w.disk, r.name, HOST_BRIDGE)
    ensures Restored(w, Stop(Run(w, r, c).world, r.name, k), r.name)
    ensures Restored(w, Rm(Run(w, r, c).world, r.name, true, k), r.name)
    ensures Rm(Run(w, r, c).world, r.name, true, k).world.disk == w.disk
  {
    var started := Run(w, r, c).world;
    RunStartsFreshly(w, r, c);
    var m := NewMeta(r, SetupFor(w, r, c).config.value, c);
    StopRestores(w, started, r.name, m, k);
    RmRestores(w, started, r.name, m, k);
  }
}
