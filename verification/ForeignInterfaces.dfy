/** Which interfaces Macker destroys, and that it leaves alone those of others' making whose names no record claims. */
module ForeignInterfaces {
  import opened Network
  import opened Lifecycle
  import opened Ledger
  import opened LedgerRuns
  import opened Cleanings
  import opened FirstContainer

  /** A cleanup by the metadata `m` destroys `s`, if it is there: `m` calls it Macker's own, the calls go well and, if
      it is a host interface, no other record refers to it. */
  predicate Destroys(disk: Disk, name: string, m: Meta, c: CleanupCalls, s: string) {
    && m.net.Some? && s != ""
    && var config := m.net.value;
       || (config.ifaceOwned && config.iface == s && c.inspectIface && c.destroyIface)
       || (config.hostOwned && config.hostInterface == s && c.scan && !InUse(disk, name, s) && c.inspectHost
               && c.destroyHost)
  }

  /** `s` stays as it is. */
  ghost predicate Stays(h: Host, h': Host, s: string) {
    s in h.ifaces && s in h'.ifaces && h'.ifaces[s] == h.ifaces[s]
  }

  lemma CleanupDestroysExactly(h: Host, disk: Disk, name: string, m: Meta, c: CleanupCalls, s: string)
    requires s in h.ifaces
    ensures var h' := Cleanup(h, disk, name, m, c).host;
            (Stays(h, h', s) <==> !Destroys(disk, name, m, c, s))
              && (s in h'.ifaces <==> !Destroys(disk, name, m, c, s))
  {
    CleanedFields(h, disk, name, m, c);
    if m.net.Some? {
      NetworkDestroysExactly(CleanupPF(h, m, c).host, disk, name, m, c, s);
    }
  }

  lemma NetworkDestroysExactly(h: Host, disk: Disk, name: string, m: Meta, c: CleanupCalls, s: string)
    requires s in h.ifaces && m.net.Some?
    ensures var h' := CleanupNetwork(h, disk, name, m.net.value, c).host;
            (Stays(h, h', s) <==> !Destroys(disk, name, m, c, s))
              && (s in h'.ifaces <==> !Destroys(disk, name, m, c, s))
  {
    var first := CleanupIface(h, m.net.value, c).host;
    assert s in first.ifaces ==> Stays(h, first, s);
  }

  predicate CleaningDestroys(w: World, name: string, cleaning: Cleaning, c: CleanupCalls, s: string) {
    cleaning.reached && Destroys(w.disk, name, cleaning.meta, c, s)
  }

  /** Somewhere in the loop of ps. */
  predicate PsDestroys(w: World, names: seq<string>, each: string -> Calls, s: string)
    decreases |names|
  {
    && names != []
    && var c := each(names[0]);
       var first := PsOne(w, names[0], c);
       || CleaningDestroys(w, names[0], PsCleaning(w, names[0], c), c.cleanup, s)
       || (first.ok && PsDestroys(first.world, names[1..], each, s))
  }

  predicate StepDestroys(w: World, e: Event, s: string) {
    match e
    case StopEvent(name, c) => CleaningDestroys(w, name, StopCleaning(w, name, c), c.cleanup, s)
    case RmEvent(name, force, c) => CleaningDestroys(w, name, RmCleaning(w, name, force, c), c.cleanup, s)
    case PsEvent(names, each) => PsDestroys(w, names, each, s)
    case FinishEvent(name, known, c) => CleaningDestroys(w, name, FinishCleaning(w, name, known, c), c.cleanup, s)
    case _ => false
  }

  lemma CleaningDestroysExactly(w: World, w': World, name: string, cleaning: Cleaning, c: CleanupCalls, s: string)
    requires CleansAs(w, w', name, cleaning, c) && s in w.host.ifaces
    ensures Stays(w.host, w'.host, s) <==> !CleaningDestroys(w, name, cleaning, c, s)
    ensures s in w'.host.ifaces <==> !CleaningDestroys(w, name, cleaning, c, s)
  {
    CleanupDestroysExactly(w.host, w.disk, name, cleaning.meta, c, s);
  }

  lemma {:induction false} PsKeepsGone(w: World, names: seq<string>, each: string -> Calls, s: string)
    requires s !in w.host.ifaces
    ensures s !in Ps(w, names, each).world.host.ifaces
  {
    PsIsTidy(w, names, each);
  }

  lemma {:induction false} PsDestroysExactly(w: World, names: seq<string>, each: string -> Calls, s: string)
    requires s in w.host.ifaces
    ensures Stays(w.host, Ps(w, names, each).world.host, s) <==> !PsDestroys(w, names, each, s)
    ensures s in Ps(w, names, each).world.host.ifaces <==> !PsDestroys(w, names, each, s)
    decreases |names|
  {
    if names != [] {
      var c := each(names[0]);
      var first := PsOne(w, names[0], c);
      PsOneCleans(w, names[0], c);
      CleaningDestroysExactly(w, first.world, names[0], PsCleaning(w, names[0], c), c.cleanup, s);
      if s in first.world.host.ifaces {
        PsDestroysExactly(first.world, names[1..], each, s);
      } else if first.ok {
        PsKeepsGone(first.world, names[1..], each, s);
      }
    }
  }

  /** Setting up only adds, and what is there already run may destroy again only in nobody's use. */
  lemma SetupOnlyAdds(w: World, r: Request, c: RunCalls)
    ensures var setup := SetupFor(w, r, c);
            && (forall s :: s in w.host.ifaces ==> s in setup.ifaces && setup.ifaces[s] == w.host.ifaces[s])
            && (setup.config.Some? && r.ExternalRequest? ==>
                    !setup.config.value.ifaceOwned && !setup.config.value.hostOwned)
            && (setup.config.Some? && r.HostRequest? ==>
                  && setup.config.value.iface !in w.host.ifaces && setup.config.value.hostInterface == HOST_BRIDGE
                  && (setup.config.value.hostOwned && HOST_BRIDGE in w.host.ifaces ==> BridgeOwned(w.disk)))
  {
    if r.HostRequest? && SetupFor(w, r, c).config.Some? {
      var bridge := EnsureBridge(w.host.ifaces, w.disk, c);
      var i := ScanSlots(UsedInterfaces(w.disk), bridge.ifaces.Keys, 1, c.bad).index;
      SlotsAreDistinct(i, i);
    }
  }

  lemma UndoDestroysNothingOld(w: World, r: Request, setup: Setup, m: Meta, h: Host, s: string)
    requires setup == Setup(h.ifaces, m.net) && setup.config.Some? && r.name !in w.disk && Stays(w.host, h, s)
    requires r.ExternalRequest? ==> !setup.config.value.ifaceOwned && !setup.config.value.hostOwned
    requires r.HostRequest? ==>
               && setup.config.value.iface !in w.host.ifaces && setup.config.value.hostInterface == HOST_BRIDGE
               && (setup.config.value.hostOwned && HOST_BRIDGE in w.host.ifaces ==> BridgeOwned(w.disk))
    ensures Stays(w.host, CleanupNetwork(h, w.disk, r.name, setup.config.value, ALL_SUCCEED).host, s)
  {
    NetworkDestroysExactly(h, w.disk, r.name, m, ALL_SUCCEED, s);
    if BridgeOwned(w.disk) {
      var n :| n in w.disk && RefersTo(w.disk[n], HOST_BRIDGE) && w.disk[n].net.value.hostOwned;
      assert InUse(w.disk, r.name, HOST_BRIDGE);
    }
  }

  /** Run, failed or not, destroys nothing that was there before it. */
  lemma RunDestroysNothingOld(w: World, r: Request, c: RunCalls, s: string)
    requires s in w.host.ifaces
    ensures Stays(w.host, Run(w, r, c).world.host, s)
  {
    var setup := SetupFor(w, r, c);
    if Acceptable(w, r) && setup.config.Some? {
      SetupOnlyAdds(w, r, c);
      var config, h := setup.config.value, w.host.(ifaces := setup.ifaces);
      var m, h1 := NewMeta(r, config, c), Installed(h, r, config, c);
      if !c.prepare || (r.ports != [] && !c.install) {
        UndoDestroysNothingOld(w, r, setup, m, h, s);
      } else if !c.launch || !c.record {
        UndoDestroysNothingOld(w, r, setup, m, CleanupPF(h1, m, ALL_SUCCEED).host, s);
      }
    }
  }

  lemma PausingDestroysNothing(w: World, name: string, c: Calls)
    ensures Pause(w, name, c).world.host == w.host && Unpause(w, name, c).world.host == w.host
  {
    PauseIsTidy(w, name, c);
    UnpauseIsTidy(w, name, c);
  }

  lemma StopDestroysExactly(w: World, name: string, c: Calls, s: string)
    requires s in w.host.ifaces
    ensures var h', destroys := Stop(w, name, c).world.host,
             CleaningDestroys(w, name, StopCleaning(w, name, c), c.cleanup, s);
            (Stays(w.host, h', s) <==> !destroys) && (s in h'.ifaces <==> !destroys)
  {
    StopCleans(w, name, c);
    CleaningDestroysExactly(w, Stop(w, name, c).world, name, StopCleaning(w, name, c), c.cleanup, s);
  }

  lemma RmDestroysExactly(w: World, name: string, force: bool, c: Calls, s: string)
    requires s in w.host.ifaces
    ensures var h' := Rm(w, name, force, c).world.host;
            var destroys := CleaningDestroys(w, name, RmCleaning(w, name, force, c), c.cleanup, s);
            (Stays(w.host, h', s) <==> !destroys) && (s in h'.ifaces <==> !destroys)
  {
    RmCleans(w, name, force, c);
    CleaningDestroysExactly(w, Rm(w, name, force, c).world, name, RmCleaning(w, name, force, c), c.cleanup, s);
  }

  lemma FinishDestroysExactly(w: World, name: string, known: bool, c: Calls, s: string)
    requires ForegroundPending(w) && s in w.host.ifaces
    ensures var h' := Finish(w, name, known, c).world.host;
            var destroys := CleaningDestroys(w, name, FinishCleaning(w, name, known, c), c.cleanup, s);
            (Stays(w.host, h', s) <==> !destroys) && (s in h'.ifaces <==> !destroys)
  {
    FinishCleans(w, name, known, c);
    CleaningDestroysExactly(w, Finish(w, name, known, c).world, name, FinishCleaning(w, name, known, c), c.cleanup, s);
  }

  /** Exactly which interfaces an event destroys, whoever made them: those of a cleanup it comes to whose record calls
      them Macker's own. Of what others do only the destruction of `s` itself is left out. */
  lemma StepDestroysExactly(w: World, e: Event, s: string)
    requires Inv(w) && s in w.host.ifaces && e != InterfaceVanishes(s)
    ensures Stays(w.host, Step(w, e).host, s) <==> !StepDestroys(w, e, s)
    ensures s in Step(w, e).host.ifaces <==> !StepDestroys(w, e, s)
  {
    match e
    case RunEvent(r, c) => RunDestroysNothingOld(w, r, c, s);
    case FinishEvent(name, known, c) => FinishDestroysExactly(w, name, known, c, s);
    case PauseEvent(name, c) => PausingDestroysNothing(w, name, c);
    case UnpauseEvent(name, c) => PausingDestroysNothing(w, name, c);
    case StopEvent(name, c) => StopDestroysExactly(w, name, c, s);
    case RmEvent(name, force, c) => RmDestroysExactly(w, name, force, c, s);
    case PsEvent(names, each) => PsDestroysExactly(w, names, each, s);
    case _ => OthersDestroyNothing(w, e, s);
  }

  lemma OthersDestroyNothing(w: World, e: Event, s: string)
    requires s in w.host.ifaces && EnvironmentStep(e) && e != InterfaceVanishes(s)
    ensures Stays(w.host, Step(w, e).host, s)
  {
    EnvironmentEffect(w, e);
  }

  lemma CleaningDestroysOwn(w: World, w': World, name: string, cleaning: Cleaning, c: CleanupCalls, s: string)
    requires CleansAs(w, w', name, cleaning, c) && CleaningDestroys(w, name, cleaning, c, s)
    ensures name in w.disk && CallsOwn(w.disk[name], s)
  {
  }

  lemma {:induction false} PsDestroysOwn(w: World, names: seq<string>, each: string -> Calls, s: string)
    requires PsDestroys(w, names, each, s)
    ensures exists n :: n in w.disk && CallsOwn(w.disk[n], s)
    decreases |names|
  {
    var c := each(names[0]);
    var first := PsOne(w, names[0], c);
    PsOneCleans(w, names[0], c);
    if CleaningDestroys(w, names[0], PsCleaning(w, names[0], c), c.cleanup, s) {
      CleaningDestroysOwn(w, first.world, names[0], PsCleaning(w, names[0], c), c.cleanup, s);
    } else {
      PsDestroysOwn(first.world, names[1..], each, s);
      PsOneIsTidy(w, names[0], c);
      var n :| n in first.world.disk && CallsOwn(first.world.disk[n], s);
      assert FewerResources(first.world.disk[n], w.disk[n]);
    }
  }

  /** Nothing is destroyed that no record calls Macker's own. */
  lemma StepDestroysOwn(w: World, e: Event, s: string)
    requires Inv(w) && StepDestroys(w, e, s)
    ensures exists n :: n in w.disk && CallsOwn(w.disk[n], s)
  {
    match e
    case StopEvent(name, c) =>
      StopCleans(w, name, c);
      CleaningDestroysOwn(w, Step(w, e), name, StopCleaning(w, name, c), c.cleanup, s);
    case RmEvent(name, force, c) =>
      RmCleans(w, name, force, c);
      CleaningDestroysOwn(w, Step(w, e), name, RmCleaning(w, name, force, c), c.cleanup, s);
    case PsEvent(names, each) => PsDestroysOwn(w, names, each, s);
    case FinishEvent(name, known, c) =>
      FinishCleans(w, name, known, c);
      CleaningDestroysOwn(w, Step(w, e), name, FinishCleaning(w, name, known, c), c.cleanup, s);
  }

  /** What records call Macker's own, and exists, Macker made. */
  ghost predicate NoFalseClaims(w: World) {
    forall n, s :: n in w.disk && s in w.host.ifaces && CallsOwn(w.disk[n], s) ==> w.host.ifaces[s].mine
  }

  lemma TidyKeepsClaims(w: World, w': World)
    requires NoFalseClaims(w) && Tidy(w, w')
    ensures NoFalseClaims(w')
  {
    forall n, s | n in w'.disk && s in w'.host.ifaces && CallsOwn(w'.disk[n], s)
      ensures w'.host.ifaces[s].mine
    {
      assert FewerResources(w'.disk[n], w.disk[n]);
      assert CallsOwn(w.disk[n], s);
    }
  }

  /** A request's network calls Macker's own only what Macker made, now or, as the records say, before. */
  lemma SetupOwns(w: World, r: Request, c: RunCalls)
    requires NoFalseClaims(w) && SetupFor(w, r, c).config.Some?
    ensures var setup := SetupFor(w, r, c);
            && (forall s :: s in setup.ifaces && CallsOwn(NewMeta(r, setup.config.value, c), s) ==>
                    setup.ifaces[s].mine)
            && (forall s :: s in setup.ifaces && s !in w.host.ifaces ==> setup.ifaces[s].mine)
  {
    if r.HostRequest? {
      var bridge := EnsureBridge(w.host.ifaces, w.disk, c);
      var i := ScanSlots(UsedInterfaces(w.disk), bridge.ifaces.Keys, 1, c.bad).index;
      SlotsAreDistinct(i, i);
      if HOST_BRIDGE in w.host.ifaces && BridgeOwned(w.disk) {
        var n :| n in w.disk && RefersTo(w.disk[n], HOST_BRIDGE) && w.disk[n].net.value.hostOwned;
        assert CallsOwn(w.disk[n], HOST_BRIDGE);
      }
    }
  }

  /** `w'` has no interface but those of `w` and of the set-up, and records nothing new, or, with the whole set-up, the
      request's record. */
  ghost predicate AddsAtMost(w: World, w': World, r: Request, setup: Setup, c: RunCalls) {
    && (forall s :: s in w'.host.ifaces && s !in w.host.ifaces ==>
            s in setup.ifaces && w'.host.ifaces[s] == setup.ifaces[s])
    && (w'.disk == w.disk
        || (setup.config.Some? && w'.disk == w.disk[r.name := NewMeta(r, setup.config.value, c)]
                && w'.host.ifaces == setup.ifaces))
  }

  lemma UndoAdds(w: World, r: Request, setup: Setup, c: RunCalls, h: Host)
    requires setup.config.Some? && h.ifaces == setup.ifaces
    ensures AddsAtMost(w, w.(host := CleanupNetwork(h, w.disk, r.name, setup.config.value, ALL_SUCCEED).host), r,
               setup, c)
  {
    NetworkShrinks(h, w.disk, r.name, setup.config.value, ALL_SUCCEED);
  }

  lemma StartedAdds(w: World, r: Request, setup: Setup, c: RunCalls, h: Host)
    requires setup.config.Some? && h.ifaces == setup.ifaces
    ensures AddsAtMost(w, Started(w, r, h, setup.config.value, c), r, setup, c)
  {
  }

  lemma RunAdds(w: World, r: Request, c: RunCalls)
    ensures AddsAtMost(w, Run(w, r, c).world, r, SetupFor(w, r, c), c)
  {
    var setup := SetupFor(w, r, c);
    if Acceptable(w, r) && setup.config.Some? {
      var config, h := setup.config.value, w.host.(ifaces := setup.ifaces);
      var m, h1 := NewMeta(r, config, c), Installed(h, r, config, c);
      if !c.prepare || (r.ports != [] && !c.install) {
        UndoAdds(w, r, setup, c, h);
      } else if !c.launch || !c.record {
        UndoAdds(w, r, setup, c, CleanupPF(h1, m, ALL_SUCCEED).host);
      } else {
        StartedAdds(w, r, setup, c, h1);
      }
    }
  }

  lemma RunKeepsClaims(w: World, r: Request, c: RunCalls)
    requires NoFalseClaims(w)
    ensures NoFalseClaims(Run(w, r, c).world)
  {
    var w', setup := Run(w, r, c).world, SetupFor(w, r, c);
    RunAdds(w, r, c);
    if setup.config.Some? { SetupOwns(w, r, c); }
    forall n, s | n in w'.disk && s in w'.host.ifaces && CallsOwn(w'.disk[n], s)
      ensures w'.host.ifaces[s].mine
    {
      if s in w.host.ifaces { RunDestroysNothingOld(w, r, c, s); }
      if setup.config.None? { assert s in w.host.ifaces; }
    }
  }

  lemma StepKeepsClaims(w: World, e: Event)
    requires Inv(w) && NoFalseClaims(w) && NoSquatting(w, e)
    ensures NoFalseClaims(Step(w, e))
  {
    if Clears(e) {
      ClearingIsTidy(w, e);
      TidyKeepsClaims(w, Step(w, e));
    } else if e.RunEvent? {
      RunKeepsClaims(w, e.request, e.run);
    } else {
      EnvironmentEffect(w, e);
    }
  }

  lemma {:induction false} NoFalseClaimsAlways(w: World, events: seq<Event>)
    requires Initial(w) && Throughout(w, events, NoSquatting)
    ensures NoFalseClaims(Execute(w, events))
    decreases |events|
  {
    if events != [] {
      var before := events[..|events| - 1];
      NothingLeaks(w, before);
      NoFalseClaimsAlways(w, before);
      StepKeepsClaims(Execute(w, before), events[|events| - 1]);
    }
  }

  /** In no run in which others keep off the names that records claim, external containers on the host bridge included,
      does any command destroy or change an interface that Macker did not make. */
  lemma ForeignInterfacesStay(w: World, events: seq<Event>, e: Event, s: string)
    requires Initial(w) && Throughout(w, events, NoSquatting) && e != InterfaceVanishes(s)
    requires var h := Execute(w, events).host; s in h.ifaces && !h.ifaces[s].mine
    ensures Stays(Execute(w, events).host, Step(Execute(w, events), e).host, s)
  {
    var v := Execute(w, events);
    NothingLeaks(w, events);
    NoFalseClaimsAlways(w, events);
    StepDestroysExactly(v, e, s);
    if StepDestroys(v, e, s) {
      StepDestroysOwn(v, e, s);
    }
  }

  /** Everything has been cleaned up, only the record could not be written, and somebody else has made an interface of
      the bridge's name. */
  function Squatted(name: string): seq<Event> {
    [FirstRunEvent(name, false), LauncherExits(name), PsOf(name, ALL_WELL.(write := false)),
        InterfaceAppears(HOST_BRIDGE, {HOST_IP})]
  }

  lemma SquattedWorld(name: string)
    ensures var v := Execute(EMPTY_WORLD, Squatted(name));
            && v.disk == FirstWorld(name, false, EXITED).disk && ProcsOf(v, name) == EXITED
            && v.host.ifaces == map[HOST_BRIDGE := Interface({HOST_IP}, false)]
  {
    var ps, appears := PsOf(name, ALL_WELL.(write := false)), InterfaceAppears(HOST_BRIDGE, {HOST_IP});
    FirstExit(name, false);
    CleanedButUnwritten(name);
    FourEvents(EMPTY_WORLD, FirstRunEvent(name, false), LauncherExits(name), ps, appears);
    assert Step(Step(FirstWorld(name, false, EXITED), ps), appears).host.ifaces
      == map[HOST_BRIDGE := Interface({HOST_IP}, false)];
  }

  /** Without that courtesy they are not safe: rm, going by the record, destroys what somebody else made. */
  lemma SquatterIsDestroyed(name: string)
    ensures var v := Execute(EMPTY_WORLD, Squatted(name));
            && Initial(EMPTY_WORLD) && HOST_BRIDGE in v.host.ifaces && !v.host.ifaces[HOST_BRIDGE].mine
            && HOST_BRIDGE !in Step(v, RmEvent(name, false, ALL_WELL)).host.ifaces
  {
    SquattedWorld(name);
    RmDestroysBridge(Execute(EMPTY_WORLD, Squatted(name)), name);
  }

  /** The record names the bridge, the launcher is dead, nobody else is there. */
  lemma RmDestroysBridge(w: World, name: string)
    requires w.disk == FirstWorld(name, false, EXITED).disk && ProcsOf(w, name) == EXITED
             && HOST_BRIDGE in w.host.ifaces
    ensures HOST_BRIDGE !in Rm(w, name, false, ALL_WELL).world.host.ifaces
  {
    assert !InUse(w.disk, name, HOST_BRIDGE);
    RmDestroysExactly(w, name, false, ALL_WELL, HOST_BRIDGE);
  }
}
