/** A container in use keeps its bridge, whoever else is on it. */
module BridgeInUse {
  import opened Network
  import opened Lifecycle
  import opened Ledger
  import opened LedgerRuns
  import opened Cleanings
  import opened HostBridge
  import opened ForeignInterfaces
  import opened BridgeReferences

  /** A container in use has the bridge it refers to. */
  ghost predicate EngagedHaveBridge(w: World) {
    forall n :: Refers(w.disk, n) && Engaged(w, n) ==> HOST_BRIDGE in w.host.ifaces
  }

  lemma CleaningKeepsEngaged(w: World, w': World, name: string, cleaning: Cleaning, c: CleanupCalls)
    requires Sound(w.disk) && CleansAs(w, w', name, cleaning, c) && EngagedHaveBridge(w) && NoNewEngagement(w, w')
    requires cleaning.reached ==> !Engaged(w', name)
    ensures EngagedHaveBridge(w')
  {
    CleaningIsBridgeStep(w, w', name, cleaning, c);
    forall n | Refers(w'.disk, n) && Engaged(w', n)
      ensures HOST_BRIDGE in w'.host.ifaces
    {
      OtherReference(w, w', name, n);
      if n != name { assert InUse(w.disk, name, HOST_BRIDGE); }
    }
  }

  lemma {:induction false} PsKeepsEngaged(w: World, names: seq<string>, each: string -> Calls)
    requires Inv(w) && EngagedHaveBridge(w)
    ensures EngagedHaveBridge(Ps(w, names, each).world)
    decreases |names|
  {
    if names != [] {
      var c := each(names[0]);
      var first := PsOne(w, names[0], c);
      PsOneCleans(w, names[0], c);
      PsOneDisengages(w, names[0], c);
      CleaningKeepsEngaged(w, first.world, names[0], PsCleaning(w, names[0], c), c.cleanup);
      if first.ok {
        PsOneKeepsInv(w, names[0], c);
        PsKeepsEngaged(first.world, names[1..], each);
      }
    }
  }

  lemma BegunEngages(w: World, name: string, c: Calls)
    ensures Attached(Begun(w, name, c).world, name) ==> Attached(w, name)
  {
  }

  lemma PausingDetaches(w: World, name: string, c: Calls)
    ensures Attached(Pause(w, name, c).world, name) ==> Attached(w, name)
    ensures Attached(Unpause(w, name, c).world, name) ==> Attached(w, name)
  {
    BegunEngages(w, name, c);
    var p := ProcsOf(w, name);
    var stopped := SignalGroups(p, StopSignal, c.resolve, c.undelivered).procs;
    var continued := SignalGroups(p, ContinueSignal, c.resolve, c.undelivered).procs;
    SignalKeepsFlags(p, StopSignal, c.resolve, c.undelivered);
    SignalKeepsFlags(p, ContinueSignal, c.resolve, c.undelivered);
    SignalKeepsFlags(stopped, ContinueSignal, c.resolve, {});
    SignalKeepsFlags(continued, StopSignal, c.resolve, {});
  }

  lemma SameNamesKeepEngaged(w: World, w': World)
    requires EngagedHaveBridge(w) && NamesTheSame(w, w') && NoNewEngagement(w, w')
    ensures EngagedHaveBridge(w')
  {
    forall n | Refers(w'.disk, n) && Engaged(w', n)
      ensures HOST_BRIDGE in w'.host.ifaces
    {
      assert Refers(w.disk, n) && Engaged(w, n);
    }
  }

  lemma PausingKeepsEngaged(w: World, name: string, c: Calls)
    requires EngagedHaveBridge(w)
    ensures EngagedHaveBridge(Pause(w, name, c).world) && EngagedHaveBridge(Unpause(w, name, c).world)
  {
    PausingDetaches(w, name, c);
    PauseIsTidy(w, name, c);
    UnpauseIsTidy(w, name, c);
    PauseLeaves(w, name, c);
    UnpauseLeaves(w, name, c);
    OneEngagement(w, Pause(w, name, c).world, name);
    OneEngagement(w, Unpause(w, name, c).world, name);
    SameNamesKeepEngaged(w, Pause(w, name, c).world);
    SameNamesKeepEngaged(w, Unpause(w, name, c).world);
  }

  lemma RunKeepsEngaged(w: World, r: Request, c: RunCalls)
    requires ForegroundPending(w) && EngagedHaveBridge(w)
    ensures EngagedHaveBridge(Run(w, r, c).world)
  {
    var w', setup := Run(w, r, c).world, SetupFor(w, r, c);
    if HOST_BRIDGE in w.host.ifaces {
      RunDestroysNothingOld(w, r, c, HOST_BRIDGE);
    } else {
      RunAdds(w, r, c);
      RunEffect(w, r, c);
      if setup.config.Some? { SetupHasItsBridge(w, r, c); }
      forall n | Refers(w'.disk, n) && Engaged(w', n)
        ensures HOST_BRIDGE in w'.host.ifaces
      {
        assert n in w.foreground ==> Pending(w, n);
        if n in w.disk { assert Refers(w.disk, n) && Engaged(w, n); }
      }
    }
  }

  lemma OthersKeepEngaged(w: World, e: Event)
    requires EngagedHaveBridge(w) && EnvironmentStep(e) && SparesReferredBridge(w, e)
    ensures EngagedHaveBridge(Step(w, e))
  {
    EnvironmentEffect(w, e);
    forall n | Refers(Step(w, e).disk, n) && Engaged(Step(w, e), n)
      ensures HOST_BRIDGE in Step(w, e).host.ifaces
    {
      assert Refers(w.disk, n) && Engaged(w, n);
    }
  }

  lemma StepKeepsEngaged(w: World, e: Event)
    requires Inv(w) && EngagedHaveBridge(w) && SparesReferredBridge(w, e)
    ensures EngagedHaveBridge(Step(w, e))
  {
    match e
    case RunEvent(r, c) => RunKeepsEngaged(w, r, c);
    case FinishEvent(name, known, c) =>
      FinishCleans(w, name, known, c);
      FinishDetaches(w, name, known, c);
      CleaningKeepsEngaged(w, Step(w, e), name, FinishCleaning(w, name, known, c), c.cleanup);
    case PauseEvent(name, c) => PausingKeepsEngaged(w, name, c);
    case UnpauseEvent(name, c) => PausingKeepsEngaged(w, name, c);
    case StopEvent(name, c) =>
      StopCleans(w, name, c);
      StopDisengages(w, name, c);
      CleaningKeepsEngaged(w, Step(w, e), name, StopCleaning(w, name, c), c.cleanup);
    case RmEvent(name, force, c) =>
      RmCleans(w, name, force, c);
      RmDisengages(w, name, force, c);
      CleaningKeepsEngaged(w, Step(w, e), name, RmCleaning(w, name, force, c), c.cleanup);
    case PsEvent(names, each) => PsKeepsEngaged(w, names, each);
    case _ => OthersKeepEngaged(w, e);
  }

  /** In every run in which nobody else destroys a bridge that records refer to, external containers on it included,
      a container in use has the bridge its record names. */
  lemma {:induction false} EngagedAlwaysHaveBridge(w: World, events: seq<Event>)
    requires Initial(w) && Throughout(w, events, SparesReferredBridge)
    ensures EngagedHaveBridge(Execute(w, events))
    decreases |events|
  {
    if events != [] {
      var before := events[..|events| - 1];
      EngagedAlwaysHaveBridge(w, before);
      NothingLeaks(w, before);
      StepKeepsEngaged(Execute(w, before), events[|events| - 1]);
    }
  }
}
