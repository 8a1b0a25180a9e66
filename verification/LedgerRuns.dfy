/** The ledger over whole runs. */
module LedgerRuns {
  import opened Text
  import opened Network
  import opened Lifecycle
  import opened Ledger

  /** Apart from the host bridge, only less than before. */
  ghost predicate ShrunkButBridge(h': Host, h: Host) {
    && (forall a :: a in h'.anchors ==> a in h.anchors) && h'.tokens <= h.tokens
    && (forall s :: s in h'.ifaces && s != HOST_BRIDGE ==> s in h.ifaces && h'.ifaces[s] == h.ifaces[s])
  }

  lemma SlotIsNotBridge(w: World, n: string, s: string)
    requires Sound(w.disk) && NamesIface(w.disk, n, s)
    ensures s != HOST_BRIDGE
  {
    var i :| Slotted(w.disk[n].net.value, i);
    SlotsAreDistinct(i, i);
  }

  lemma LessHostKeepsLedger(w: World, h': Host)
    requires Named(w.disk, w.host) && ShrunkButBridge(h', w.host)
    ensures Named(w.disk, h')
  {
    forall s | OwnIface(h', s)
      ensures exists n :: NamesIface(w.disk, n, s)
    {
      assert OwnIface(w.host, s);
    }
  }

  /** What a set-up network is: in host mode a new slot, the lowest free one, in external mode nothing new. */
  ghost predicate NewSlot(w: World, setup: Setup, i: nat) {
    && setup.config.Some? && Slotted(setup.config.value, i) && setup.config.value.ifaceOwned
    && setup.config.value.hostInterface == HOST_BRIDGE
    && SlotName(i) !in UsedInterfaces(w.disk) && SlotName(i) !in w.host.ifaces
    && SlotName(i) in setup.ifaces && setup.ifaces[SlotName(i)].mine
    && (forall s :: s in setup.ifaces && s != SlotName(i) && s != HOST_BRIDGE ==>
          s in w.host.ifaces && setup.ifaces[s] == w.host.ifaces[s])
    && (forall j :: 1 <= j < i ==> SlotName(j) in UsedInterfaces(w.disk) || SlotName(j) in w.host.ifaces)
  }

  lemma SetupMakesSlot(w: World, c: RunCalls)
    ensures var setup := SetupNetwork(w.host.ifaces, w.disk, c);
            && (setup.config.None? ==> setup.ifaces == w.host.ifaces)
            && (setup.config.Some? ==> exists i :: NewSlot(w, setup, i))
  {
    var setup := SetupNetwork(w.host.ifaces, w.disk, c);
    if setup.config.Some? {
      var bridge := EnsureBridge(w.host.ifaces, w.disk, c);
      var i := ScanSlots(UsedInterfaces(w.disk), bridge.ifaces.Keys, 1, c.bad).index;
      SlotsAreDistinct(i, i);
      assert forall s :: s in bridge.ifaces && s != HOST_BRIDGE ==>
        s in w.host.ifaces && bridge.ifaces[s] == w.host.ifaces[s];
      forall j | 1 <= j < i
        ensures SlotName(j) in UsedInterfaces(w.disk) || SlotName(j) in w.host.ifaces
      {
        SlotsAreDistinct(j, j);
      }
      assert NewSlot(w, setup, i);
    }
  }

  ghost predicate NothingNew(w: World, setup: Setup) {
    setup.ifaces == w.host.ifaces && setup.config.Some? && !setup.config.value.ifaceOwned
      && !setup.config.value.hostOwned
  }

  lemma SetupShape(w: World, r: Request, c: RunCalls)
    ensures var setup := SetupFor(w, r, c);
            && (setup.config.None? ==> setup.ifaces == w.host.ifaces)
            && (setup.config.Some? && r.HostRequest? ==> exists i :: NewSlot(w, setup, i))
            && (setup.config.Some? && r.ExternalRequest? ==> NothingNew(w, setup))
  {
    if r.HostRequest? {
      SetupMakesSlot(w, c);
    }
  }

  lemma UndoNetworkShrinks(w: World, r: Request, setup: Setup, h: Host)
    requires setup.config.Some? && h.ifaces == setup.ifaces
    requires NothingNew(w, setup) || exists i :: NewSlot(w, setup, i)
    ensures var h' := CleanupNetwork(h, w.disk, r.name, setup.config.value, ALL_SUCCEED).host;
            && h'.anchors == h.anchors && h'.tokens == h.tokens
            && (forall s :: s in h'.ifaces && s != HOST_BRIDGE ==>
                    s in w.host.ifaces && h'.ifaces[s] == w.host.ifaces[s])
  {
    var config := setup.config.value;
    if i :| NewSlot(w, setup, i) {
      assert SlotName(i) != "" by { assert |SlotName(i)| >= |HOST_BRIDGE|; }
      var first := CleanupIface(h, config, ALL_SUCCEED);
      assert first.host.ifaces == h.ifaces - {SlotName(i)};
      DestroyShrinks(first.host, config.hostInterface, true, true);
    }
  }

  /** Undoing after PF was installed, from where only the network is left to undo. */
  lemma UndoneInstallShrinks(w: World, r: Request, setup: Setup, c: RunCalls)
    requires r.name !in w.disk && setup.config.Some?
    ensures var h := Installed(w.host.(ifaces := setup.ifaces), r, setup.config.value, c);
            var h1 := CleanupPF(h, NewMeta(r, setup.config.value, c), ALL_SUCCEED).host;
            && h1.ifaces == setup.ifaces && h1.tokens <= w.host.tokens
            && forall a :: a in h1.anchors ==> a in w.host.anchors
  {
  }

  lemma UndoKeepsLedger(w: World, r: Request, setup: Setup, c: RunCalls, installed: bool)
    requires r.name !in w.disk
    requires setup.config.Some? && (NothingNew(w, setup) || exists i :: NewSlot(w, setup, i))
    ensures var h := w.host.(ifaces := setup.ifaces);
            var m := NewMeta(r, setup.config.value, c);
            var h' := if installed then Undo(Installed(h, r, setup.config.value, c), w.disk, r, setup.config.value,
                  Some(m))
                      else Undo(h, w.disk, r, setup.config.value, None);
            ShrunkButBridge(h', w.host)
  {
    var config := setup.config.value;
    var h := w.host.(ifaces := setup.ifaces);
    if installed {
      UndoneInstallShrinks(w, r, setup, c);
      UndoNetworkShrinks(w, r, setup, CleanupPF(Installed(h, r, config, c), NewMeta(r, config, c), ALL_SUCCEED).host);
    } else {
      UndoNetworkShrinks(w, r, setup, h);
    }
  }

  lemma OtherInterfaces(w: World, n: string, s: string)
    requires NamesIface(w.disk, n, s) && s != ""
    ensures s in UsedInterfaces(w.disk)
  {
  }

  lemma StartedKeepsNamed(w: World, r: Request, setup: Setup, c: RunCalls)
    requires Named(w.disk, w.host) && Sound(w.disk) && r.name !in w.disk && setup.config.Some?
    requires NothingNew(w, setup) || exists i :: NewSlot(w, setup, i)
    ensures Named(w.disk[r.name := NewMeta(r, setup.config.value, c)],
                  Installed(w.host.(ifaces := setup.ifaces), r, setup.config.value, c))
  {
    var config := setup.config.value;
    var m := NewMeta(r, config, c);
    var disk, h := w.disk[r.name := m], Installed(w.host.(ifaces := setup.ifaces), r, config, c);
    forall a | a in h.anchors
      ensures exists n :: NamesAnchor(disk, n, a)
    {
      if r.ports != [] && a == AnchorFor(r.name) {
        assert NamesAnchor(disk, r.name, a);
      } else {
        var n :| NamesAnchor(w.disk, n, a);
        assert NamesAnchor(disk, n, a);
      }
    }
    forall t | t in h.tokens
      ensures exists n :: NamesToken(disk, n, t)
    {
      if r.ports != [] && t == c.token {
        assert NamesToken(disk, r.name, t);
      } else {
        var n :| NamesToken(w.disk, n, t);
        assert NamesToken(disk, n, t);
      }
    }
    forall s | OwnIface(h, s)
      ensures exists n :: NamesIface(disk, n, s)
    {
      if config.ifaceOwned && s == config.iface {
        assert NamesIface(disk, r.name, s);
      } else {
        assert OwnIface(w.host, s);
        var n :| NamesIface(w.disk, n, s);
        assert NamesIface(disk, n, s);
      }
    }
  }

  lemma StartedKeepsSound(w: World, r: Request, setup: Setup, c: RunCalls)
    requires Sound(w.disk) && r.name !in w.disk && setup.config.Some?
    requires NothingNew(w, setup) || exists i :: NewSlot(w, setup, i)
    ensures Sound(w.disk[r.name := NewMeta(r, setup.config.value, c)])
  {
    var config := setup.config.value;
    var disk := w.disk[r.name := NewMeta(r, config, c)];
    forall n, s | NamesIface(disk, n, s)
      ensures exists i :: Slotted(disk[n].net.value, i)
      ensures n != r.name ==> NamesIface(w.disk, n, s) && !(config.ifaceOwned && s == config.iface)
    {
      if n == r.name {
        var i :| NewSlot(w, setup, i);
        assert Slotted(disk[n].net.value, i);
      } else {
        assert NamesIface(w.disk, n, s);
        var j :| Slotted(w.disk[n].net.value, j);
        assert Slotted(disk[n].net.value, j);
        SlotNamesNotEmpty(w, n, s);
        OtherInterfaces(w, n, s);
        SlotIsNotBridge(w, n, s);
      }
    }
    forall n, m, s | NamesIface(disk, n, s) && NamesIface(disk, m, s)
      ensures n == m
    {
      if n != r.name && m != r.name {
        assert NamesIface(w.disk, n, s) && NamesIface(w.disk, m, s);
      }
    }
    forall n, a | NamesAnchor(disk, n, a)
      ensures a == AnchorFor(n)
    {
      if n != r.name { assert NamesAnchor(w.disk, n, a); }
    }
  }

  lemma RunWithKeepsLedger(w: World, r: Request, setup: Setup, c: RunCalls)
    requires Named(w.disk, w.host) && Sound(w.disk) && FreshToken(w, c.token) && r.name !in w.disk
    requires setup.config.Some? && (NothingNew(w, setup) || exists i :: NewSlot(w, setup, i))
    ensures var w' := RunWith(w, r, setup.ifaces, setup.config.value, c).world;
            Named(w'.disk, w'.host) && Sound(w'.disk)
  {
    if !c.prepare || (r.ports != [] && !c.install) {
      UndoKeepsLedger(w, r, setup, c, false);
      LessHostKeepsLedger(w, RunWith(w, r, setup.ifaces, setup.config.value, c).world.host);
    } else if !c.launch || !c.record {
      UndoKeepsLedger(w, r, setup, c, true);
      LessHostKeepsLedger(w, RunWith(w, r, setup.ifaces, setup.config.value, c).world.host);
    } else {
      StartedKeepsNamed(w, r, setup, c);
      StartedKeepsSound(w, r, setup, c);
    }
  }

  lemma RunKeepsLedger(w: World, r: Request, c: RunCalls)
    requires Named(w.disk, w.host) && Sound(w.disk) && FreshToken(w, c.token)
    ensures var w' := Run(w, r, c).world; Named(w'.disk, w'.host) && Sound(w'.disk)
  {
    var setup := SetupFor(w, r, c);
    SetupShape(w, r, c);
    if Acceptable(w, r) && setup.config.Some? {
      RunWithKeepsLedger(w, r, setup, c);
    }
  }

  /** Only the container `name` is touched. */
  ghost predicate TouchesOnly(w: World, w': World, name: string) {
    && w'.foreground == w.foreground
    && forall n :: n != name ==> (n in w'.disk <==> n in w.disk) && RecordOf(w'.disk, n) == RecordOf(w.disk, n)
                                 && ProcsOf(w', n) == ProcsOf(w, n)
  }

  /** A pending foreground run is left as it is. */
  ghost predicate Leaves(w: World, w': World, name: string) {
    TouchesOnly(w, w', name) && (Pending(w, name) ==> Pending(w', name))
  }

  lemma LeavesKeepsPending(w: World, w': World, name: string)
    requires ForegroundPending(w) && Leaves(w, w', name)
    ensures ForegroundPending(w')
  {
    forall n | n in w'.foreground
      ensures Pending(w', n)
    {
      assert Pending(w, n);
      assert n != name ==> RecordOf(w'.disk, n) == RecordOf(w.disk, n);
    }
  }

  lemma BegunLeaves(w: World, name: string, c: Calls)
    ensures TouchesOnly(w, Begun(w, name, c).world, name)
    ensures Pending(w, name) ==> Begun(w, name, c).world == w
  {
  }

  lemma PauseLeaves(w: World, name: string, c: Calls)
    ensures Leaves(w, Pause(w, name, c).world, name)
  {
    BegunLeaves(w, name, c);
  }

  lemma UnpauseLeaves(w: World, name: string, c: Calls)
    ensures Leaves(w, Unpause(w, name, c).world, name)
  {
    BegunLeaves(w, name, c);
  }

  lemma StopAgainTouches(w: World, name: string, m: Meta, c: Calls)
    ensures TouchesOnly(w, StopAgain(w, name, m, c).world, name)
  {
  }

  lemma StopDetachedTouches(w: World, name: string, m: Meta, p: Processes, c: Calls)
    ensures TouchesOnly(w, StopDetached(w, name, m, p, c).world, name)
  {
  }

  lemma TouchesTransitive(a: World, b: World, c: World, name: string)
    requires TouchesOnly(a, b, name) && TouchesOnly(b, c, name)
    ensures TouchesOnly(a, c, name)
  {
  }

  lemma StopResumedTouches(w: World, name: string, m: Meta, c: Calls)
    ensures TouchesOnly(w, StopResumed(w, name, m, c).world, name)
    ensures !m.pid && !m.stopped ==> StopResumed(w, name, m, c) == Out(w, false)
  {
    if !m.pid {
      StopAgainTouches(w, name, m, c);
    } else if c.alive && (ProcsOf(w, name).launcher ==> c.terminate) {
      var p := Terminated(ProcsOf(w, name), c);
      var w1 := WithProcs(w, name, p);
      StopDetachedTouches(w1, name, m, p, c);
      TouchesTransitive(w, w1, StopDetached(w1, name, m, p, c).world, name);
    }
  }

  lemma StopBegunLeaves(w: World, name: string, m: Meta, c: Calls)
    ensures TouchesOnly(w, StopBegun(w, name, m, c).world, name)
    ensures Pending(w, name) && m == w.disk[name] ==>
             Pending(StopBegun(w, name, m, c).world, name) && !StopBegun(w, name, m, c).ok
  {
    var sent := Resume(m, ProcsOf(w, name), c);
    if sent.ok && c.stopExec {
      var w1 := WithProcs(w, name, StopExecs(sent.procs, c.stopExec, c.execsKilled));
      StopResumedTouches(w1, name, m.(paused := false), c);
    }
  }

  lemma StopLeaves(w: World, name: string, c: Calls)
    ensures Leaves(w, Stop(w, name, c).world, name)
    ensures Pending(w, name) ==> !Stop(w, name, c).ok
  {
    if name in w.disk {
      StopBegunLeaves(w, name, Refreshed(w.disk[name], ProcsOf(w, name)), c);
    }
  }

  lemma RmLeaves(w: World, name: string, force: bool, c: Calls)
    ensures Leaves(w, Rm(w, name, force, c).world, name)
  {
    StopLeaves(w, name, c);
  }

  lemma PsOneLeaves(w: World, name: string, c: Calls)
    ensures Leaves(w, PsOne(w, name, c).world, name)
  {
    if name in w.disk {
      var p := ProcsOf(w, name);
      var w1 := WithProcs(w, name, StopExecs(p, c.stopExec, c.execsKilled));
      PsDeadTouches(w1, name, Refreshed(w.disk[name], p), RefreshChanges(w.disk[name], p), c);
    }
  }

  lemma PsDeadTouches(w: World, name: string, m: Meta, changed: bool, c: Calls)
    ensures TouchesOnly(w, PsDead(w, name, m, changed, c).world, name)
  {
  }

  lemma {:induction false} PsKeepsPending(w: World, names: seq<string>, each: string -> Calls)
    requires ForegroundPending(w)
    ensures ForegroundPending(Ps(w, names, each).world)
    decreases |names|
  {
    if names != [] {
      var first := PsOne(w, names[0], each(names[0]));
      PsOneLeaves(w, names[0], each(names[0]));
      LeavesKeepsPending(w, first.world, names[0]);
      if first.ok {
        PsKeepsPending(first.world, names[1..], each);
      }
    }
  }

  lemma FinishKeepsPending(w: World, name: string, exitKnown: bool, c: Calls)
    requires ForegroundPending(w)
    ensures ForegroundPending(Finish(w, name, exitKnown, c).world)
  {
    var w' := Finish(w, name, exitKnown, c).world;
    forall n | n in w'.foreground
      ensures Pending(w', n)
    {
      assert Pending(w, n);
    }
  }

  ghost predicate OneStarted(w: World, w': World, r: Request, c: RunCalls) {
    && r.name !in w.disk && w'.procs == w.procs[r.name := Processes(r.detach, Running, [], false)]
    && exists config :: w'.disk == w.disk[r.name := NewMeta(r, config, c)]
                        && w'.foreground == if r.detach then w.foreground
                           else w.foreground[r.name := NewMeta(r, config, c)]
  }

  ghost predicate NoneStarted(w: World, w': World) {
    w'.disk == w.disk && w'.procs == w.procs && w'.foreground == w.foreground
  }

  /** Run adds one record and its processes, or nothing. */
  lemma RunEffect(w: World, r: Request, c: RunCalls)
    ensures NoneStarted(w, Run(w, r, c).world) || OneStarted(w, Run(w, r, c).world, r, c)
  {
    var setup := SetupFor(w, r, c);
    if Acceptable(w, r) && setup.config.Some? {
      var config, h := setup.config.value, w.host.(ifaces := setup.ifaces);
      var out := RunWith(w, r, setup.ifaces, config, c);
      if out.ok {
        assert out.world == Started(w, r, Installed(h, r, config, c), config, c);
        assert out.world.disk == w.disk[r.name := NewMeta(r, config, c)];
      }
    }
  }

  lemma RunKeepsPending(w: World, r: Request, c: RunCalls)
    requires ForegroundPending(w)
    ensures ForegroundPending(Run(w, r, c).world)
  {
    RunEffect(w, r, c);
    StartedKeepsPending(w, Run(w, r, c).world, r, c);
  }

  lemma StartedKeepsPending(w: World, w': World, r: Request, c: RunCalls)
    requires ForegroundPending(w) && (NoneStarted(w, w') || OneStarted(w, w', r, c))
    ensures ForegroundPending(w')
  {
    forall n | n in w'.foreground
      ensures Pending(w', n)
    {
      if n in w.foreground { assert Pending(w, n); }
    }
  }

  ghost predicate EnvironmentStep(e: Event) {
    e.LauncherExits? || e.LauncherKilled? || e.TreeKilled? || e.ExecStarts? || e.ExecEnds?
    || e.InterfaceAppears? || e.InterfaceVanishes?
  }

  /** Nobody else writes metadata, touches anchors or tokens, or starts a launcher. */
  lemma EnvironmentEffect(w: World, e: Event)
    requires EnvironmentStep(e)
    ensures var w' := Step(w, e);
            && w'.disk == w.disk && w'.foreground == w.foreground
            && w'.host == w.host.(ifaces := w'.host.ifaces)
            && (!e.InterfaceAppears? && !e.InterfaceVanishes? ==> w'.host == w.host)
            && (forall s :: OwnIface(w'.host, s) ==> OwnIface(w.host, s))
            && (forall n :: ProcsOf(w', n).launcher ==> ProcsOf(w, n).launcher)
            && (forall n :: !ProcsOf(w, n).launcher && !ProcsOf(w, n).record ==> !ProcsOf(w', n).record)
  {
  }

  lemma EnvironmentKeepsLedger(w: World, e: Event)
    requires Inv(w) && EnvironmentStep(e)
    ensures Inv(Step(w, e))
  {
    var w' := Step(w, e);
    EnvironmentEffect(w, e);
    forall n | n in w'.foreground
      ensures Pending(w', n)
    {
      assert Pending(w, n);
    }
    forall s | OwnIface(w'.host, s)
      ensures exists n :: NamesIface(w'.disk, n, s)
    {
      assert OwnIface(w.host, s);
    }
  }

  /** Every event keeps the ledger, whatever calls fail in it. */
  lemma StepKeepsLedger(w: World, e: Event)
    requires Inv(w)
    ensures Inv(Step(w, e))
  {
    match e
    case RunEvent(r, c) =>
      if FreshToken(w, c.token) {
        RunKeepsLedger(w, r, c);
        RunKeepsPending(w, r, c);
      }
    case FinishEvent(name, exitKnown, c) =>
      FinishIsTidy(w, name, exitKnown, c);
      TidyKeepsLedger(w, Finish(w, name, exitKnown, c).world);
      FinishKeepsPending(w, name, exitKnown, c);
    case PauseEvent(name, c) =>
      PauseIsTidy(w, name, c);
      PauseLeaves(w, name, c);
      TidyStep(w, Pause(w, name, c).world, name);
    case UnpauseEvent(name, c) =>
      UnpauseIsTidy(w, name, c);
      UnpauseLeaves(w, name, c);
      TidyStep(w, Unpause(w, name, c).world, name);
    case StopEvent(name, c) =>
      StopIsTidy(w, name, c);
      StopLeaves(w, name, c);
      TidyStep(w, Stop(w, name, c).world, name);
    case RmEvent(name, force, c) =>
      RmIsTidy(w, name, force, c);
      RmLeaves(w, name, force, c);
      TidyStep(w, Rm(w, name, force, c).world, name);
    case PsEvent(names, each) =>
      PsIsTidy(w, names, each);
      TidyKeepsLedger(w, Ps(w, names, each).world);
      PsKeepsPending(w, names, each);
    case _ => EnvironmentKeepsLedger(w, e);
  }

  lemma TidyKeepsLedger(w: World, w': World)
    requires Inv(w) && Tidy(w, w')
    ensures Named(w'.disk, w'.host) && Sound(w'.disk)
  {
    TidyKeepsNamed(w, w');
    TidyKeepsSound(w, w');
  }

  lemma TidyStep(w: World, w': World, name: string)
    requires Inv(w) && Tidy(w, w') && Leaves(w, w', name)
    ensures Inv(w')
  {
    TidyKeepsLedger(w, w');
    LeavesKeepsPending(w, w', name);
  }

  /** No leaked resource in any run: however calls fail and whatever the environment does, after every event each
      loaded anchor, each held token and each interface made for a container is named by metadata on disk. */
  lemma {:induction false} NothingLeaks(w: World, events: seq<Event>)
    requires Initial(w)
    ensures Inv(Execute(w, events))
    decreases |events|
  {
    if events != [] {
      NothingLeaks(w, events[..|events| - 1]);
      StepKeepsLedger(Execute(w, events[..|events| - 1]), events[|events| - 1]);
    }
  }

  predicate Clears(e: Event) {
    e.FinishEvent? || e.PauseEvent? || e.UnpauseEvent? || e.StopEvent? || e.RmEvent? || e.PsEvent?
  }

  lemma ClearingIsTidy(w: World, e: Event)
    requires Inv(w) && Clears(e)
    ensures Tidy(w, Step(w, e))
  {
    match e
    case FinishEvent(name, exitKnown, c) => FinishIsTidy(w, name, exitKnown, c);
    case PauseEvent(name, c) => PauseIsTidy(w, name, c);
    case UnpauseEvent(name, c) => UnpauseIsTidy(w, name, c);
    case StopEvent(name, c) => StopIsTidy(w, name, c);
    case RmEvent(name, force, c) => RmIsTidy(w, name, force, c);
    case PsEvent(names, each) => PsIsTidy(w, names, each);
  }

  lemma OthersRemoveNothing(w: World, e: Event, n: string)
    requires !Clears(e) && n in w.disk
    ensures n in Step(w, e).disk && Step(w, e).disk[n] == w.disk[n]
  {
    if EnvironmentStep(e) {
      EnvironmentEffect(w, e);
    } else {
      RunEffect(w, e.request, e.run);
    }
  }

  /** A container's directory goes only when its own anchor, token and interface have gone. */
  lemma RemovedOnlyWhenReleased(w: World, e: Event, n: string)
    requires Inv(w) && n in w.disk && n !in Step(w, e).disk
    ensures var m, h := w.disk[n], Step(w, e).host;
            && (m.pfAnchor.Some? ==> m.pfAnchor.value !in h.anchors)
            && (m.pfToken.Some? ==> m.pfToken.value !in h.tokens)
            && (m.net.Some? && m.net.value.ifaceOwned ==> m.net.value.iface !in h.ifaces)
  {
    if Clears(e) {
      ClearingIsTidy(w, e);
      assert Released(Step(w, e).host, w.disk[n], RecordOf(Step(w, e).disk, n));
      if w.disk[n].net.Some? && w.disk[n].net.value.ifaceOwned {
        SlotNamesNotEmpty(w, n, w.disk[n].net.value.iface);
      }
    } else {
      OthersRemoveNothing(w, e, n);
    }
  }

  /** Owned interfaces and addresses are pairwise distinct, each the slot of one index, in every reachable world. */
  lemma OwnedSlotsAreDistinct(w: World, events: seq<Event>, n: string, m: string)
    requires Initial(w)
    requires var disk := Execute(w, events).disk;
             n in disk && m in disk && n != m && disk[n].net.Some? && disk[m].net.Some?
             && disk[n].net.value.ifaceOwned && disk[m].net.value.ifaceOwned
    ensures var a, b := Execute(w, events).disk[n].net.value, Execute(w, events).disk[m].net.value;
            && a.iface != b.iface && a.ip != b.ip
            && exists i, j :: Slotted(a, i) && Slotted(b, j) && i != j
  {
    NothingLeaks(w, events);
    var disk := Execute(w, events).disk;
    var a, b := disk[n].net.value, disk[m].net.value;
    assert NamesIface(disk, n, a.iface) && NamesIface(disk, m, b.iface);
    var i :| Slotted(a, i);
    var j :| Slotted(b, j);
    SlotsAreDistinct(i, j);
  }

  /** A cleanup, first or retried, destroys no interface another container's metadata says is its own. */
  lemma CleanupHitsOnlyItsOwn(w: World, name: string, c: CleanupCalls, n: string, s: string)
    requires Sound(w.disk) && name in w.disk && n != name && NamesIface(w.disk, n, s) && s in w.host.ifaces
    ensures s in Cleanup(w.host, w.disk, name, w.disk[name], c).host.ifaces
  {
    var m := w.disk[name];
    if m.net.Some? && m.net.value.ifaceOwned {
      assert NamesIface(w.disk, name, m.net.value.iface);
    }
    SlotIsNotBridge(w, n, s);
    assert OwnsOnlyTheBridge(m);
  }

  ghost predicate SlotTaken(w: World, i: nat) {
    SlotName(i) in UsedInterfaces(w.disk) || SlotName(i) in w.host.ifaces
  }

  /** With every call succeeding, run in host mode fails for lack of a slot exactly when all 167 are reserved on disk
      or exist; otherwise it takes the lowest free one. */
  lemma SlotChoice(w: World, c: RunCalls)
    requires c.inspectHost && c.readAddress && c.scanOwned && c.createHost && c.scanUsed && c.createSlot
    requires !(1 <= c.bad <= LIMIT)
    requires HOST_BRIDGE in w.host.ifaces ==> HOST_IP in w.host.ifaces[HOST_BRIDGE].addresses
    ensures SetupNetwork(w.host.ifaces, w.disk, c).config.None? <==> forall i :: 1 <= i <= LIMIT ==> SlotTaken(w, i)
    ensures SetupNetwork(w.host.ifaces, w.disk, c).config.Some? ==>
             exists i :: NewSlot(w, SetupNetwork(w.host.ifaces, w.disk, c), i)
  {
    SetupMakesSlot(w, c);
    var existing := EnsureBridge(w.host.ifaces, w.disk, c).ifaces.Keys;
    var scan := ScanSlots(UsedInterfaces(w.disk), existing, 1, c.bad);
    if scan.NoSlot? {
      forall i | 1 <= i <= LIMIT
        ensures SlotTaken(w, i)
      {
        SlotExistence(w, c, i);
      }
    } else {
      SlotExistence(w, c, scan.index);
      assert !SlotTaken(w, scan.index);
    }
  }

  lemma SlotExistence(w: World, c: RunCalls, i: nat)
    ensures SlotName(i) in EnsureBridge(w.host.ifaces, w.disk, c).ifaces <==> SlotName(i) in w.host.ifaces
  {
    SlotsAreDistinct(i, i);
  }
}
