/** When records refer to a bridge that is there. */
module BridgeReferences {
  import opened Network
  import opened Lifecycle
  import opened Ledger
  import opened LedgerRuns
  import opened Cleanings
  import opened HostBridge
  import opened ForeignInterfaces
  import opened FirstContainer

  /** The bridge is there if any record refers to it. */
  ghost predicate ReferredIsThere(w: World) {
    forall n :: Refers(w.disk, n) ==> HOST_BRIDGE in w.host.ifaces
  }

  /** A cleanup by `m` destroys the bridge. */
  predicate BridgeGoes(w: World, name: string, m: Meta, c: CleanupCalls) {
    && RefersTo(m, HOST_BRIDGE) && m.net.value.hostOwned && HOST_BRIDGE in w.host.ifaces
    && c.scan && !InUse(w.disk, name, HOST_BRIDGE) && c.inspectHost && c.destroyHost
  }

  /** The container's own interface is gone after the cleanup, or was none of its business. */
  predicate InterfaceGoes(h: Host, config: NetConfig, c: CleanupCalls) {
    config.ifaceOwned && config.iface != "" ==> c.inspectIface && (config.iface in h.ifaces ==> c.destroyIface)
  }

  /** When the bridge goes, so do the container's interface and, for good, the record of its network. */
  predicate CleansWholly(w: World, name: string, cleaning: Cleaning, c: CleanupCalls) {
    cleaning.reached && BridgeGoes(w, name, cleaning.meta, c) ==>
      InterfaceGoes(w.host, cleaning.meta.net.value, c) && cleaning.lands
  }

  /** The interfaces a network cleanup leaves, as far as the bridge is concerned, and whether it succeeds. */
  lemma BridgeAfterNetwork(w: World, name: string, m: Meta, c: CleanupCalls)
    requires m.net.Some? && RefersTo(m, HOST_BRIDGE) && HOST_BRIDGE in w.host.ifaces
    requires m.net.value.ifaceOwned ==> m.net.value.iface != HOST_BRIDGE
    ensures var h' := Cleanup(w.host, w.disk, name, m, c).host;
            && (HOST_BRIDGE in h'.ifaces <==> !BridgeGoes(w, name, m, c))
            && (BridgeGoes(w, name, m, c) ==> (NetworkGoes(w, name, m, c) <==> InterfaceGoes(w.host, m.net.value, c)))
  {
    CleanupDestroysExactly(w.host, w.disk, name, m, c, HOST_BRIDGE);
    var pf := CleanupPF(w.host, m, c).host;
    assert pf.ifaces == w.host.ifaces;
    var first := CleanupIface(pf, m.net.value, c);
    assert first.ok == InterfaceGoes(w.host, m.net.value, c);
    assert HOST_BRIDGE in first.host.ifaces;
  }

  lemma OwnInterfaceIsNotBridge(w: World, name: string, m: Meta)
    requires Sound(w.disk) && name in w.disk && SameResources(m, w.disk[name]) && m.net.Some? && m.net.value.ifaceOwned
    ensures m.net.value.iface != HOST_BRIDGE
  {
    assert NamesIface(w.disk, name, m.net.value.iface);
    SlotIsNotBridge(w, name, m.net.value.iface);
  }

  lemma UnreferringKeepsBridge(w: World, name: string, m: Meta, c: CleanupCalls)
    requires Sound(w.disk) && name in w.disk && SameResources(m, w.disk[name]) && !RefersTo(m, HOST_BRIDGE)
    requires HOST_BRIDGE in w.host.ifaces
    ensures HOST_BRIDGE in Cleanup(w.host, w.disk, name, m, c).host.ifaces
  {
    CleanupDestroysExactly(w.host, w.disk, name, m, c, HOST_BRIDGE);
    if m.net.Some? && m.net.value.ifaceOwned { OwnInterfaceIsNotBridge(w, name, m); }
    assert OwnsOnlyTheBridge(w.disk[name]);
  }

  /** The bridge stays, or goes with the last reference to it, exactly when the cleanup is whole. */
  lemma CleaningKeepsReferredExactly(w: World, w': World, name: string, cleaning: Cleaning, c: CleanupCalls)
    requires Sound(w.disk) && CleansAs(w, w', name, cleaning, c) && ReferredIsThere(w)
    ensures ReferredIsThere(w') <==> CleansWholly(w, name, cleaning, c)
  {
    forall n | n != name
      ensures Refers(w'.disk, n) <==> Refers(w.disk, n)
    {
      assert RecordOf(w'.disk, n) == RecordOf(w.disk, n);
    }
    if cleaning.reached {
      if HOST_BRIDGE in w.host.ifaces && RefersTo(cleaning.meta, HOST_BRIDGE) {
        if cleaning.meta.net.value.ifaceOwned { OwnInterfaceIsNotBridge(w, name, cleaning.meta); }
        BridgeAfterNetwork(w, name, cleaning.meta, c);
        ReferredAfter(w, w', name, cleaning, c);
      } else if HOST_BRIDGE in w.host.ifaces {
        UnreferringKeepsBridge(w, name, cleaning.meta, c);
      } else {
        assert !Refers(w.disk, name);
      }
    } else {
      assert Refers(w'.disk, name) ==> Refers(w.disk, name);
    }
  }

  lemma ReferredAfter(w: World, w': World, name: string, cleaning: Cleaning, c: CleanupCalls)
    requires CleansAs(w, w', name, cleaning, c) && cleaning.reached && RefersTo(cleaning.meta, HOST_BRIDGE)
    requires HOST_BRIDGE in w'.host.ifaces <==> !BridgeGoes(w, name, cleaning.meta, c)
    requires BridgeGoes(w, name, cleaning.meta, c) ==>
               (NetworkGoes(w, name, cleaning.meta, c) <==> InterfaceGoes(w.host, cleaning.meta.net.value, c))
    requires forall n :: n != name ==> (Refers(w'.disk, n) <==> Refers(w.disk, n))
    ensures ReferredIsThere(w') <==> CleansWholly(w, name, cleaning, c)
  {
    if BridgeGoes(w, name, cleaning.meta, c) {
      assert forall n :: n != name ==> !Refers(w.disk, n);
      assert Refers(w'.disk, name) <==> !(NetworkGoes(w, name, cleaning.meta, c) && cleaning.lands);
    }
  }

  /** Over the loop of ps; a cleanup that is not whole ends it. */
  ghost predicate PsCleansWholly(w: World, names: seq<string>, each: string -> Calls)
    decreases |names|
  {
    names == [] ||
    (var c := each(names[0]);
     var first := PsOne(w, names[0], c);
     && CleansWholly(w, names[0], PsCleaning(w, names[0], c), c.cleanup)
     && (first.ok ==> PsCleansWholly(first.world, names[1..], each)))
  }

  /** What an event must do for every reference to keep its bridge. */
  ghost predicate KeepsReferred(w: World, e: Event) {
    match e
    case StopEvent(name, c) => CleansWholly(w, name, StopCleaning(w, name, c), c.cleanup)
    case RmEvent(name, force, c) => CleansWholly(w, name, RmCleaning(w, name, force, c), c.cleanup)
    case PsEvent(names, each) => PsCleansWholly(w, names, each)
    case FinishEvent(name, known, c) => CleansWholly(w, name, FinishCleaning(w, name, known, c), c.cleanup)
    case _ => SparesReferredBridge(w, e)
  }

  lemma StopKeepsReferredExactly(w: World, name: string, c: Calls)
    requires Sound(w.disk) && ReferredIsThere(w)
    ensures ReferredIsThere(Stop(w, name, c).world) <==> CleansWholly(w, name, StopCleaning(w, name, c), c.cleanup)
  {
    StopCleans(w, name, c);
    CleaningKeepsReferredExactly(w, Stop(w, name, c).world, name, StopCleaning(w, name, c), c.cleanup);
  }

  lemma RmKeepsReferredExactly(w: World, name: string, force: bool, c: Calls)
    requires Sound(w.disk) && ReferredIsThere(w)
    ensures ReferredIsThere(Rm(w, name, force, c).world)
            <==> CleansWholly(w, name, RmCleaning(w, name, force, c), c.cleanup)
  {
    RmCleans(w, name, force, c);
    CleaningKeepsReferredExactly(w, Rm(w, name, force, c).world, name, RmCleaning(w, name, force, c), c.cleanup);
  }

  lemma FinishKeepsReferredExactly(w: World, name: string, known: bool, c: Calls)
    requires Sound(w.disk) && ForegroundPending(w) && ReferredIsThere(w)
    ensures ReferredIsThere(Finish(w, name, known, c).world)
            <==> CleansWholly(w, name, FinishCleaning(w, name, known, c), c.cleanup)
  {
    FinishCleans(w, name, known, c);
    CleaningKeepsReferredExactly(w, Finish(w, name, known, c).world, name, FinishCleaning(w, name, known, c),
        c.cleanup);
  }

  lemma PsOneKeepsReferredExactly(w: World, name: string, c: Calls)
    requires Sound(w.disk) && ReferredIsThere(w)
    ensures ReferredIsThere(PsOne(w, name, c).world) <==> CleansWholly(w, name, PsCleaning(w, name, c), c.cleanup)
    ensures PsOne(w, name, c).ok ==> CleansWholly(w, name, PsCleaning(w, name, c), c.cleanup)
  {
    var cleaning := PsCleaning(w, name, c);
    PsOneCleans(w, name, c);
    CleaningKeepsReferredExactly(w, PsOne(w, name, c).world, name, cleaning, c.cleanup);
    if PsOne(w, name, c).ok && cleaning.reached && BridgeGoes(w, name, cleaning.meta, c.cleanup) {
      PsOneOkIsWhole(w, name, c);
      if cleaning.meta.net.value.ifaceOwned { OwnInterfaceIsNotBridge(w, name, cleaning.meta); }
      BridgeAfterNetwork(w, name, cleaning.meta, c.cleanup);
    }
  }

  lemma PsOneOkIsWhole(w: World, name: string, c: Calls)
    requires PsOne(w, name, c).ok && PsCleaning(w, name, c).reached && PsCleaning(w, name, c).meta.net.Some?
    ensures NetworkGoes(w, name, PsCleaning(w, name, c).meta, c.cleanup) && PsCleaning(w, name, c).lands
  {
    CleanedNetwork(w, name, PsCleaning(w, name, c).meta, c.cleanup);
  }

  lemma {:induction false} PsKeepsReferredExactly(w: World, names: seq<string>, each: string -> Calls)
    requires Inv(w) && ReferredIsThere(w)
    ensures ReferredIsThere(Ps(w, names, each).world) <==> PsCleansWholly(w, names, each)
    decreases |names|
  {
    if names != [] {
      var c := each(names[0]);
      var first := PsOne(w, names[0], c);
      PsOneKeepsReferredExactly(w, names[0], c);
      if first.ok {
        PsOneKeepsInv(w, names[0], c);
        PsKeepsReferredExactly(first.world, names[1..], each);
      }
    }
  }

  lemma RunKeepsReferred(w: World, r: Request, c: RunCalls)
    requires ReferredIsThere(w)
    ensures ReferredIsThere(Run(w, r, c).world)
  {
    var w', setup := Run(w, r, c).world, SetupFor(w, r, c);
    RunAdds(w, r, c);
    if HOST_BRIDGE in w.host.ifaces { RunDestroysNothingOld(w, r, c, HOST_BRIDGE); }
    if setup.config.Some? { SetupHasItsBridge(w, r, c); }
    forall n | Refers(w'.disk, n)
      ensures HOST_BRIDGE in w'.host.ifaces
    {
      if n in w.disk && w'.disk[n] == w.disk[n] { assert Refers(w.disk, n); }
    }
  }

  lemma SetupHasItsBridge(w: World, r: Request, c: RunCalls)
    requires SetupFor(w, r, c).config.Some?
    ensures var setup := SetupFor(w, r, c);
             setup.config.value.hostInterface == HOST_BRIDGE ==> HOST_BRIDGE in setup.ifaces
  {
  }

  lemma OthersKeepReferredExactly(w: World, e: Event)
    requires ReferredIsThere(w) && EnvironmentStep(e)
    ensures ReferredIsThere(Step(w, e)) <==> SparesReferredBridge(w, e)
  {
    EnvironmentEffect(w, e);
    forall n
      ensures Refers(Step(w, e).disk, n) <==> n in w.disk && RefersTo(w.disk[n], HOST_BRIDGE)
    {
    }
  }

  lemma SameReferences(w: World, w': World)
    requires ReferredIsThere(w) && NamesTheSame(w, w')
    ensures ReferredIsThere(w')
  {
    assert forall n :: Refers(w'.disk, n) ==> Refers(w.disk, n);
  }

  lemma PausingKeepsReferred(w: World, name: string, c: Calls)
    requires ReferredIsThere(w)
    ensures ReferredIsThere(Pause(w, name, c).world) && ReferredIsThere(Unpause(w, name, c).world)
  {
    PauseNamesTheSame(w, name, c);
    UnpauseNamesTheSame(w, name, c);
    SameReferences(w, Pause(w, name, c).world);
    SameReferences(w, Unpause(w, name, c).world);
  }

  /** Exactly which events leave every reference with its bridge. */
  lemma StepKeepsReferredExactly(w: World, e: Event)
    requires Inv(w) && ReferredIsThere(w)
    ensures ReferredIsThere(Step(w, e)) <==> KeepsReferred(w, e)
  {
    match e
    case RunEvent(r, c) => RunKeepsReferred(w, r, c);
    case FinishEvent(name, known, c) => FinishKeepsReferredExactly(w, name, known, c);
    case PauseEvent(name, c) => PausingKeepsReferred(w, name, c);
    case UnpauseEvent(name, c) => PausingKeepsReferred(w, name, c);
    case StopEvent(name, c) => StopKeepsReferredExactly(w, name, c);
    case RmEvent(name, force, c) => RmKeepsReferredExactly(w, name, force, c);
    case PsEvent(names, each) => PsKeepsReferredExactly(w, names, each);
    case _ => OthersKeepReferredExactly(w, e);
  }

  /** Every reference on disk has its bridge after every event of a run exactly when every event meets its condition:
      when a cleanup takes the bridge the container's interface goes too and the record lands, and others leave a
      bridge that is referred to. */
  lemma {:induction false} ReferencesAreAlwaysThere(w: World, events: seq<Event>)
    requires Initial(w)
    ensures AtEveryPoint(w, events, ReferredIsThere) <==> Throughout(w, events, KeepsReferred)
    decreases |events|
  {
    if events == [] {
      assert events[..0] == [];
    } else {
      var before, e := events[..|events| - 1], events[|events| - 1];
      assert events == before + [e];
      ReferencesAreAlwaysThere(w, before);
      NothingLeaks(w, before);
      OneMorePoint(w, before, e, ReferredIsThere);
      if ReferredIsThere(Execute(w, before)) {
        StepKeepsReferredExactly(Execute(w, before), e);
      }
    }
  }

  /** "The bridge exists as long as any configuration refers to it" does not hold: when the container's own interface
      cannot be destroyed the bridge still can, and the record goes on claiming it. */
  lemma BridgeCanGoFirst(name: string)
    ensures var c := ALL_WELL.(cleanup := ALL_SUCCEED.(destroyIface := false));
            var v := Execute(EMPTY_WORLD, [FirstRunEvent(name, false), LauncherExits(name), PsOf(name, c)]);
            Initial(EMPTY_WORLD) && Claims(v.disk, name) && HOST_BRIDGE !in v.host.ifaces
  {
    BridgeCanGo(name, ALL_WELL.(cleanup := ALL_SUCCEED.(destroyIface := false)));
  }

  /** Nor does it when all is cleaned up and only the write fails. */
  lemma BridgeCanGoUnwritten(name: string)
    ensures var v := Execute(EMPTY_WORLD,
               [FirstRunEvent(name, false), LauncherExits(name), PsOf(name, ALL_WELL.(write := false))]);
            Initial(EMPTY_WORLD) && Claims(v.disk, name) && HOST_BRIDGE !in v.host.ifaces
  {
    BridgeCanGo(name, ALL_WELL.(write := false));
  }

  lemma BridgeCanGo(name: string, c: Calls)
    requires c.refresh && c.status && c.stopExec && c.cleanup.scan && c.cleanup.inspectHost && c.cleanup.destroyHost
    requires !c.cleanup.destroyIface || !c.write
    ensures var v := Execute(EMPTY_WORLD, [FirstRunEvent(name, false), LauncherExits(name), PsOf(name, c)]);
            Initial(EMPTY_WORLD) && Claims(v.disk, name) && HOST_BRIDGE !in v.host.ifaces
  {
    FirstExit(name, false);
    ThreeEvents(EMPTY_WORLD, FirstRunEvent(name, false), LauncherExits(name), PsOf(name, c));
    PsOfOne(FirstWorld(name, false, EXITED), name, c);
    PsTakesBridgeOnly(name, c);
  }

  lemma PsTakesBridgeOnly(name: string, c: Calls)
    requires c.refresh && c.status && c.stopExec && c.cleanup.scan && c.cleanup.inspectHost && c.cleanup.destroyHost
    requires !c.cleanup.destroyIface || !c.write
    ensures var w' := PsOne(FirstWorld(name, false, EXITED), name, c).world;
            Claims(w'.disk, name) && HOST_BRIDGE !in w'.host.ifaces
  {
    var w := FirstWorld(name, false, EXITED);
    var cleaning := PsCleaning(w, name, c);
    FirstSetup();
    assert !InUse(w.disk, name, HOST_BRIDGE);
    PsOneCleans(w, name, c);
    BridgeAfterNetwork(w, name, cleaning.meta, c.cleanup);
  }
}
