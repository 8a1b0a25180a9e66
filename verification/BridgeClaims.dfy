/** When Macker's bridge is claimed by some record, and what becomes of it when it no longer is. */
module BridgeClaims {
  import opened Text
  import opened Network
  import opened Lifecycle
  import opened Ledger
  import opened LedgerRuns
  import opened Cleanings
  import opened HostBridge
  import opened ForeignInterfaces
  import opened FirstContainer

  ghost predicate SomeClaim(disk: Disk) {
    exists n :: Claims(disk, n)
  }

  /** If the bridge is Macker's, some record says so. */
  ghost predicate OursIsClaimed(w: World) {
    BridgeIsOurs(w.host) ==> SomeClaim(w.disk)
  }

  /** The cleaning gives up the only claim to Macker's bridge while others, who do not claim it, refer to it. */
  ghost predicate GivesUpLastClaim(w: World, name: string, cleaning: Cleaning, c: CleanupCalls) {
    && cleaning.reached && Claims(w.disk, name) && BridgeIsOurs(w.host) && InUse(w.disk, name, HOST_BRIDGE)
    && (forall n :: n != name ==> !Claims(w.disk, n))
    && NetworkGoes(w, name, cleaning.meta, c) && cleaning.lands
  }

  lemma OthersClaim(w: World, w': World, name: string, n: string)
    requires OthersKeep(w, w', name) && n != name
    ensures Claims(w'.disk, n) <==> Claims(w.disk, n)
  {
    assert RecordOf(w'.disk, n) == RecordOf(w.disk, n);
  }

  /** A claim stands until the network it is part of is cleaned up for good. */
  lemma ClaimAfter(w: World, w': World, name: string, cleaning: Cleaning, c: CleanupCalls)
    requires CleansAs(w, w', name, cleaning, c)
    ensures Claims(w'.disk, name) <==>
              Claims(w.disk, name) && !(cleaning.reached && NetworkGoes(w, name, cleaning.meta, c) && cleaning.lands)
  {
  }

  /** Macker's bridge stays, and is Macker's, unless a cleanup destroys it on its record's claim. */
  lemma BridgeAfter(w: World, w': World, name: string, cleaning: Cleaning, c: CleanupCalls)
    requires Sound(w.disk) && CleansAs(w, w', name, cleaning, c)
    ensures BridgeIsOurs(w'.host) ==> BridgeIsOurs(w.host)
    ensures BridgeIsOurs(w.host) && !BridgeIsOurs(w'.host) ==> Claims(w.disk, name) && !InUse(w.disk, name, HOST_BRIDGE)
  {
    if cleaning.reached {
      CleanupBridgeEffect(w, name, cleaning.meta, c);
    }
  }

  /** A network that goes takes the bridge with it, if it claimed it and nobody else refers to it. */
  lemma BridgeGoesWithLastReference(w: World, name: string, m: Meta, c: CleanupCalls)
    requires Sound(w.disk) && name in w.disk && SameResources(m, w.disk[name])
    requires Claims(w.disk, name) && !InUse(w.disk, name, HOST_BRIDGE) && NetworkGoes(w, name, m, c)
    ensures HOST_BRIDGE !in Cleanup(w.host, w.disk, name, m, c).host.ifaces
  {
    CleanedNetwork(w, name, m, c);
    CleanupBridgeEffect(w, name, m, c);
  }

  /** Exactly which cleanings leave Macker's bridge claimed by somebody. */
  lemma CleaningKeepsClaimExactly(w: World, w': World, name: string, cleaning: Cleaning, c: CleanupCalls)
    requires Sound(w.disk) && CleansAs(w, w', name, cleaning, c) && OursIsClaimed(w)
    ensures OursIsClaimed(w') <==> !GivesUpLastClaim(w, name, cleaning, c)
  {
    forall n | n != name
      ensures Claims(w'.disk, n) <==> Claims(w.disk, n)
    {
      OthersClaim(w, w', name, n);
    }
    ClaimAfter(w, w', name, cleaning, c);
    BridgeAfter(w, w', name, cleaning, c);
    if cleaning.reached && Claims(w.disk, name) && !InUse(w.disk, name, HOST_BRIDGE)
       && NetworkGoes(w, name, cleaning.meta, c) {
      BridgeGoesWithLastReference(w, name, cleaning.meta, c);
    }
    if BridgeIsOurs(w'.host) && !GivesUpLastClaim(w, name, cleaning, c) {
      var n :| Claims(w.disk, n);
      assert Claims(w'.disk, name) || exists k :: k != name && Claims(w.disk, k);
    }
  }

  /** Macker's bridge stands and no record claims it. */
  ghost predicate Stranded(w: World) {
    BridgeIsOurs(w.host) && !SomeClaim(w.disk)
  }

  lemma CleaningKeepsStranded(w: World, w': World, name: string, cleaning: Cleaning, c: CleanupCalls)
    requires Sound(w.disk) && CleansAs(w, w', name, cleaning, c) && Stranded(w)
    ensures Stranded(w')
  {
    ClaimAfter(w, w', name, cleaning, c);
    assert !Claims(w.disk, name);
    forall n | n != name
      ensures !Claims(w'.disk, n)
    {
      OthersClaim(w, w', name, n);
    }
    if cleaning.reached { CleanupBridgeEffect(w, name, cleaning.meta, c); }
  }

  lemma {:induction false} PsKeepsStranded(w: World, names: seq<string>, each: string -> Calls)
    requires Inv(w) && Stranded(w)
    ensures Stranded(Ps(w, names, each).world)
    decreases |names|
  {
    if names != [] {
      var c := each(names[0]);
      var first := PsOne(w, names[0], c);
      PsOneCleans(w, names[0], c);
      CleaningKeepsStranded(w, first.world, names[0], PsCleaning(w, names[0], c), c.cleanup);
      if first.ok {
        PsOneKeepsInv(w, names[0], c);
        PsKeepsStranded(first.world, names[1..], each);
      }
    }
  }

  /** Over the loop of ps. */
  ghost predicate PsKeepsClaim(w: World, names: seq<string>, each: string -> Calls)
    decreases |names|
  {
    names == [] ||
    (var c := each(names[0]);
     var first := PsOne(w, names[0], c);
     && !GivesUpLastClaim(w, names[0], PsCleaning(w, names[0], c), c.cleanup)
     && (first.ok ==> PsKeepsClaim(first.world, names[1..], each)))
  }

  lemma {:induction false} PsKeepsClaimExactly(w: World, names: seq<string>, each: string -> Calls)
    requires Inv(w) && OursIsClaimed(w)
    ensures OursIsClaimed(Ps(w, names, each).world) <==> PsKeepsClaim(w, names, each)
    decreases |names|
  {
    if names != [] {
      var c := each(names[0]);
      var first := PsOne(w, names[0], c);
      PsOneCleans(w, names[0], c);
      CleaningKeepsClaimExactly(w, first.world, names[0], PsCleaning(w, names[0], c), c.cleanup);
      if first.ok {
        PsOneKeepsInv(w, names[0], c);
        if OursIsClaimed(first.world) {
          PsKeepsClaimExactly(first.world, names[1..], each);
        } else {
          PsKeepsStranded(first.world, names[1..], each);
        }
      }
    }
  }

  predicate RunFails(r: Request, c: RunCalls) {
    !c.prepare || (r.ports != [] && !c.install) || !c.launch || !c.record
  }

  /** A run raises the bridge, fails, and leaves it to others who refer to it, none of whom claims it. */
  ghost predicate RaisesForOthers(w: World, r: Request, c: RunCalls) {
    && r.HostRequest? && Acceptable(w, r) && HOST_BRIDGE !in w.host.ifaces && SetupFor(w, r, c).config.Some?
    && RunFails(r, c) && InUse(w.disk, r.name, HOST_BRIDGE) && !SomeClaim(w.disk)
  }

  /** The bridge and the claims after a run. */
  lemma BridgeAfterRun(w: World, r: Request, c: RunCalls)
    ensures var w', setup := Run(w, r, c).world, SetupFor(w, r, c);
            && (HOST_BRIDGE in w.host.ifaces ==> Stays(w.host, w'.host, HOST_BRIDGE))
            && (|| w'.disk == w.disk
                || (setup.config.Some? && r.name !in w.disk
                    && w'.disk == w.disk[r.name := NewMeta(r, setup.config.value, c)]))
  {
    if HOST_BRIDGE in w.host.ifaces { RunDestroysNothingOld(w, r, c, HOST_BRIDGE); }
    RunAdds(w, r, c);
  }

  /** A bridge raised by a run that fails is taken down again unless others refer to it. */
  lemma RaisedThenUndone(w: World, r: Request, c: RunCalls)
    requires r.HostRequest? && HOST_BRIDGE !in w.host.ifaces && SetupFor(w, r, c).config.Some? && RunFails(r, c)
    requires Acceptable(w, r)
    ensures var w' := Run(w, r, c).world;
            && w'.disk == w.disk && (HOST_BRIDGE in w'.host.ifaces <==> InUse(w.disk, r.name, HOST_BRIDGE))
            && (HOST_BRIDGE in w'.host.ifaces ==> BridgeIsOurs(w'.host))
  {
    var setup := SetupFor(w, r, c);
    RaisedSetup(w, r, c);
    var config, h := setup.config.value, w.host.(ifaces := setup.ifaces);
    var m, h1 := NewMeta(r, config, c), Installed(h, r, config, c);
    NetworkDestroysExactly(h, w.disk, r.name, m, ALL_SUCCEED, HOST_BRIDGE);
    NetworkDestroysExactly(CleanupPF(h1, m, ALL_SUCCEED).host, w.disk, r.name, m, ALL_SUCCEED, HOST_BRIDGE);
  }

  lemma RaisedSetup(w: World, r: Request, c: RunCalls)
    requires r.HostRequest? && HOST_BRIDGE !in w.host.ifaces && SetupFor(w, r, c).config.Some?
    ensures var setup := SetupFor(w, r, c);
            && HOST_BRIDGE in setup.ifaces && setup.ifaces[HOST_BRIDGE].mine
            && setup.config.value.hostOwned && setup.config.value.hostInterface == HOST_BRIDGE
            && setup.config.value.iface != HOST_BRIDGE
  {
    var bridge := EnsureBridge(w.host.ifaces, w.disk, c);
    var i := ScanSlots(UsedInterfaces(w.disk), bridge.ifaces.Keys, 1, c.bad).index;
    SlotsAreDistinct(i, i);
  }

  lemma NewRecordClaims(w: World, r: Request, setup: Setup, c: RunCalls)
    requires setup.config.Some? && r.name !in w.disk
    ensures SomeClaim(w.disk) ==> SomeClaim(w.disk[r.name := NewMeta(r, setup.config.value, c)])
    ensures setup.config.value.hostOwned && setup.config.value.hostInterface == HOST_BRIDGE ==>
              SomeClaim(w.disk[r.name := NewMeta(r, setup.config.value, c)])
  {
    var disk := w.disk[r.name := NewMeta(r, setup.config.value, c)];
    if n :| Claims(w.disk, n) {
      assert Claims(disk, n);
    }
    if setup.config.value.hostOwned && setup.config.value.hostInterface == HOST_BRIDGE {
      assert Claims(disk, r.name);
    }
  }

  /** Exactly which runs leave Macker's bridge claimed by somebody. */
  lemma RunKeepsClaimExactly(w: World, r: Request, c: RunCalls)
    requires OursIsClaimed(w)
    ensures OursIsClaimed(Run(w, r, c).world) <==> !RaisesForOthers(w, r, c)
  {
    var w', setup := Run(w, r, c).world, SetupFor(w, r, c);
    BridgeAfterRun(w, r, c);
    if setup.config.Some? && r.name !in w.disk { NewRecordClaims(w, r, setup, c); }
    if HOST_BRIDGE !in w.host.ifaces && Acceptable(w, r) && setup.config.Some? {
      if r.ExternalRequest? {
        RunAdds(w, r, c);
      } else if RunFails(r, c) {
        RaisedThenUndone(w, r, c);
      } else {
        RaisedSetup(w, r, c);
        SuccessfulRunRecords(w, r, c);
      }
    }
  }

  lemma SuccessfulRunRecords(w: World, r: Request, c: RunCalls)
    requires Acceptable(w, r) && SetupFor(w, r, c).config.Some? && !RunFails(r, c)
    ensures Run(w, r, c).world.disk == w.disk[r.name := NewMeta(r, SetupFor(w, r, c).config.value, c)]
  {
  }

  /** What an event must do for Macker's bridge to stay claimed. */
  ghost predicate KeepsClaim(w: World, e: Event) {
    match e
    case RunEvent(r, c) => FreshToken(w, c.token) ==> !RaisesForOthers(w, r, c)
    case StopEvent(name, c) => !GivesUpLastClaim(w, name, StopCleaning(w, name, c), c.cleanup)
    case RmEvent(name, force, c) => !GivesUpLastClaim(w, name, RmCleaning(w, name, force, c), c.cleanup)
    case PsEvent(names, each) => PsKeepsClaim(w, names, each)
    case FinishEvent(name, known, c) => !GivesUpLastClaim(w, name, FinishCleaning(w, name, known, c), c.cleanup)
    case _ => true
  }

  lemma StopKeepsClaimExactly(w: World, name: string, c: Calls)
    requires Sound(w.disk) && OursIsClaimed(w)
    ensures OursIsClaimed(Stop(w, name, c).world) <==> !GivesUpLastClaim(w, name, StopCleaning(w, name, c), c.cleanup)
  {
    StopCleans(w, name, c);
    CleaningKeepsClaimExactly(w, Stop(w, name, c).world, name, StopCleaning(w, name, c), c.cleanup);
  }

  lemma RmKeepsClaimExactly(w: World, name: string, force: bool, c: Calls)
    requires Sound(w.disk) && OursIsClaimed(w)
    ensures OursIsClaimed(Rm(w, name, force, c).world) <==>
              !GivesUpLastClaim(w, name, RmCleaning(w, name, force, c), c.cleanup)
  {
    RmCleans(w, name, force, c);
    CleaningKeepsClaimExactly(w, Rm(w, name, force, c).world, name, RmCleaning(w, name, force, c), c.cleanup);
  }

  lemma FinishKeepsClaimExactly(w: World, name: string, known: bool, c: Calls)
    requires Sound(w.disk) && ForegroundPending(w) && OursIsClaimed(w)
    ensures OursIsClaimed(Finish(w, name, known, c).world) <==>
              !GivesUpLastClaim(w, name, FinishCleaning(w, name, known, c), c.cleanup)
  {
    FinishCleans(w, name, known, c);
    CleaningKeepsClaimExactly(w, Finish(w, name, known, c).world, name, FinishCleaning(w, name, known, c), c.cleanup);
  }

  lemma SameNamesKeepClaims(w: World, w': World)
    requires NamesTheSame(w, w')
    ensures SomeClaim(w'.disk) <==> SomeClaim(w.disk)
  {
    forall n
      ensures Claims(w'.disk, n) <==> Claims(w.disk, n)
    {
      if n in w.disk { assert SameResources(w'.disk[n], w.disk[n]); }
    }
  }

  lemma PausingKeepsClaims(w: World, name: string, c: Calls)
    ensures Pause(w, name, c).world.host == w.host && Unpause(w, name, c).world.host == w.host
    ensures SomeClaim(Pause(w, name, c).world.disk) <==> SomeClaim(w.disk)
    ensures SomeClaim(Unpause(w, name, c).world.disk) <==> SomeClaim(w.disk)
  {
    PauseNamesTheSame(w, name, c);
    UnpauseNamesTheSame(w, name, c);
    SameNamesKeepClaims(w, Pause(w, name, c).world);
    SameNamesKeepClaims(w, Unpause(w, name, c).world);
  }

  lemma OthersKeepClaim(w: World, e: Event)
    requires OursIsClaimed(w) && EnvironmentStep(e)
    ensures OursIsClaimed(Step(w, e))
  {
    EnvironmentEffect(w, e);
  }

  lemma RunEventKeepsClaim(w: World, r: Request, c: RunCalls)
    requires OursIsClaimed(w)
    ensures OursIsClaimed(Step(w, RunEvent(r, c))) <==> KeepsClaim(w, RunEvent(r, c))
  {
    RunKeepsClaimExactly(w, r, c);
  }

  lemma QuietEventKeepsClaim(w: World, e: Event)
    requires OursIsClaimed(w) && (e.PauseEvent? || e.UnpauseEvent? || EnvironmentStep(e))
    ensures OursIsClaimed(Step(w, e)) && KeepsClaim(w, e)
  {
    match e
    case PauseEvent(name, c) => PausingKeepsClaims(w, name, c);
    case UnpauseEvent(name, c) => PausingKeepsClaims(w, name, c);
    case _ => OthersKeepClaim(w, e);
  }

  /** Exactly which events leave Macker's bridge claimed by somebody. */
  lemma StepKeepsClaimExactly(w: World, e: Event)
    requires Inv(w) && OursIsClaimed(w)
    ensures OursIsClaimed(Step(w, e)) <==> KeepsClaim(w, e)
  {
    match e
    case RunEvent(r, c) => RunEventKeepsClaim(w, r, c);
    case FinishEvent(name, known, c) => FinishKeepsClaimExactly(w, name, known, c);
    case StopEvent(name, c) => StopKeepsClaimExactly(w, name, c);
    case RmEvent(name, force, c) => RmKeepsClaimExactly(w, name, force, c);
    case PsEvent(names, each) => PsKeepsClaimExactly(w, names, each);
    case _ => QuietEventKeepsClaim(w, e);
  }

  /** Macker's bridge is claimed by some record after every event of a run exactly when every event meets its
      condition: no cleaning gives up the last claim while others refer to the bridge without claiming it, and no
      failed run raises it for such others. */
  lemma {:induction false} BridgeIsAlwaysClaimed(w: World, events: seq<Event>)
    requires Initial(w)
    ensures AtEveryPoint(w, events, OursIsClaimed) <==> Throughout(w, events, KeepsClaim)
    decreases |events|
  {
    if events == [] {
      assert events[..0] == [];
    } else {
      var before, e := events[..|events| - 1], events[|events| - 1];
      assert events == before + [e];
      BridgeIsAlwaysClaimed(w, before);
      NothingLeaks(w, before);
      OneMorePoint(w, before, e, OursIsClaimed);
      if OursIsClaimed(Execute(w, before)) {
        StepKeepsClaimExactly(Execute(w, before), e);
      }
    }
  }

  lemma RunKeepsStranded(w: World, r: Request, c: RunCalls)
    requires Stranded(w)
    ensures Stranded(Run(w, r, c).world)
  {
    var w', setup := Run(w, r, c).world, SetupFor(w, r, c);
    BridgeAfterRun(w, r, c);
    if setup.config.Some? {
      SetupOnlyAdds(w, r, c);
      assert !BridgeOwned(w.disk) by {
        if n :| n in w.disk && RefersTo(w.disk[n], HOST_BRIDGE) && w.disk[n].net.value.hostOwned {
          assert Claims(w.disk, n);
        }
      }
    }
    forall n
      ensures !Claims(w'.disk, n)
    {
      assert !Claims(w.disk, n);
    }
  }

  lemma StepKeepsStranded(w: World, e: Event)
    requires Inv(w) && Stranded(w) && e != InterfaceVanishes(HOST_BRIDGE)
    ensures Stranded(Step(w, e))
  {
    match e
    case RunEvent(r, c) => RunKeepsStranded(w, r, c);
    case FinishEvent(name, known, c) =>
      FinishCleans(w, name, known, c);
      CleaningKeepsStranded(w, Step(w, e), name, FinishCleaning(w, name, known, c), c.cleanup);
    case PauseEvent(name, c) => PausingKeepsClaims(w, name, c);
    case UnpauseEvent(name, c) => PausingKeepsClaims(w, name, c);
    case StopEvent(name, c) =>
      StopCleans(w, name, c);
      CleaningKeepsStranded(w, Step(w, e), name, StopCleaning(w, name, c), c.cleanup);
    case RmEvent(name, force, c) =>
      RmCleans(w, name, force, c);
      CleaningKeepsStranded(w, Step(w, e), name, RmCleaning(w, name, force, c), c.cleanup);
    case PsEvent(names, each) => PsKeepsStranded(w, names, each);
    case _ => EnvironmentEffect(w, e);
  }

  /** A bridge once stranded is never destroyed by Macker again, whatever is run or cleaned up afterwards. */
  lemma {:induction false} StrandedForGood(w: World, events: seq<Event>)
    requires Inv(w) && Stranded(w) && InterfaceVanishes(HOST_BRIDGE) !in events
    ensures Inv(Execute(w, events)) && Stranded(Execute(w, events))
    decreases |events|
  {
    if events != [] {
      var before := events[..|events| - 1];
      StrandedForGood(w, before);
      StepKeepsStranded(Execute(w, before), events[|events| - 1]);
      StepKeepsLedger(Execute(w, before), events[|events| - 1]);
    }
  }

  /** An external container that takes the bridge for its interface and its host interface. */
  function Lodger(name: string): Request {
    ExternalRequest(name, [], false, true, HOST_BRIDGE, HOST_IP, HOST_BRIDGE, HOST_IP)
  }

  function LodgerConfig(): NetConfig {
    NetConfig(HOST_BRIDGE, HOST_IP, HOST_BRIDGE, HOST_IP, false, false)
  }

  lemma LodgerRuns(name: string, other: string)
    requires name != other
    ensures var w := FirstWorld(name, false, RUNNING);
            var w' := Step(w, RunEvent(Lodger(other), RUN_SUCCEEDS));
            && w'.disk == w.disk[other := NewMeta(Lodger(other), LodgerConfig(), RUN_SUCCEEDS)] && w'.host == w.host
            && ProcsOf(w', name) == RUNNING
  {
    var w := FirstWorld(name, false, RUNNING);
    FirstSetup();
    assert SetupFor(w, Lodger(other), RUN_SUCCEEDS) == Setup(FirstIfaces(), Some(LodgerConfig()));
    assert Acceptable(w, Lodger(other));
  }

  lemma LastClaimGoes(w: World, name: string, other: string)
    requires name != other && w.disk.Keys == {name, other}
    requires w.disk[name] == FirstWorld(name, false, RUNNING).disk[name]
    requires w.disk[other].net == Some(LodgerConfig()) && w.host.ifaces == FirstIfaces() && ProcsOf(w, name) == RUNNING
    ensures GivesUpLastClaim(w, name, StopCleaning(w, name, ALL_WELL), ALL_SUCCEED)
  {
    FirstSetup();
    assert Claims(w.disk, name) && RefersTo(w.disk[other], HOST_BRIDGE);
    assert forall n :: n != name ==> !Claims(w.disk, n);
  }

  /** An external container lodges on the bridge of a host-mode one, and that is stopped, all going well: Macker's
      bridge stands, the lodger refers to it, and nobody claims it. */
  lemma LodgerStrandsBridge(name: string, other: string)
    requires name != other
    ensures var v := Execute(EMPTY_WORLD, [FirstRunEvent(name, false), RunEvent(Lodger(other), RUN_SUCCEEDS),
                                           StopEvent(name, ALL_WELL)]);
            Initial(EMPTY_WORLD) && Stranded(v)
  {
    var run, lodge, stop :=
      FirstRunEvent(name, false), RunEvent(Lodger(other), RUN_SUCCEEDS), StopEvent(name, ALL_WELL);
    var w := Step(Step(EMPTY_WORLD, run), lodge);
    FirstExit(name, false);
    LodgerRuns(name, other);
    ThreeEvents(EMPTY_WORLD, run, lodge, stop);
    LastClaimGoes(w, name, other);
    LodgerIsSound(w, run, lodge);
    StopKeepsClaimExactly(w, name, ALL_WELL);
  }

  lemma LodgerIsSound(w: World, run: Event, lodge: Event)
    requires w == Step(Step(EMPTY_WORLD, run), lodge)
    ensures Sound(w.disk)
  {
    NothingLeaks(EMPTY_WORLD, [run, lodge]);
    assert [] + [run] == [run] && [run] + [lodge] == [run, lodge];
    OneMoreEvent(EMPTY_WORLD, [], run);
    OneMoreEvent(EMPTY_WORLD, [run], lodge);
  }
}
