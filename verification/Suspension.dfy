/** Pausing and resuming: no workload stays suspended behind Macker's back. */
module Suspension {
  import opened Text
  import opened Lifecycle
  import opened Ledger
  import opened LedgerRuns
  import opened Cleanings
  import opened FirstContainer

  ghost predicate IsSuspended(w: World, n: string) {
    ProcsOf(w, n).workload.Suspended?
  }

  ghost predicate RecordedPaused(w: World, n: string) {
    n in w.disk && w.disk[n].paused
  }

  /** Every suspended workload is recorded as paused, and only a dead one leaves an exit record. */
  ghost predicate NoOrphan(w: World) {
    && (forall n :: IsSuspended(w, n) ==> RecordedPaused(w, n))
    && (forall n :: ProcsOf(w, n).record ==> ProcsOf(w, n).workload.Dead?)
  }

  /** A suspended workload is a detached one whose launcher lives. */
  ghost predicate Attended(w: World) {
    forall n :: IsSuspended(w, n) ==> n in w.disk && w.disk[n].pid && ProcsOf(w, n).launcher
  }

  /** What a step does to the one container it is about is enough to keep both. */
  lemma OneContainer(w: World, w': World, name: string)
    requires NoOrphan(w)
    requires forall n :: n != name ==> (n in w'.disk <==> n in w.disk) && RecordOf(w'.disk, n) == RecordOf(w.disk, n)
                                       && ProcsOf(w', n) == ProcsOf(w, n)
    requires IsSuspended(w', name) ==> RecordedPaused(w', name)
    requires ProcsOf(w', name).record ==> ProcsOf(w', name).workload.Dead?
    ensures NoOrphan(w')
    ensures Attended(w) && (IsSuspended(w', name) ==> w'.disk[name].pid && ProcsOf(w', name).launcher) ==> Attended(w')
  {
    forall n | n != name
      ensures IsSuspended(w', n) ==> RecordedPaused(w', n)
      ensures ProcsOf(w', n).record ==> ProcsOf(w', n).workload.Dead?
    {
      assert RecordOf(w'.disk, n) == RecordOf(w.disk, n) && ProcsOf(w', n) == ProcsOf(w, n);
      if IsSuspended(w, n) { assert RecordedPaused(w, n); }
    }
    if Attended(w) {
      forall n | n != name && IsSuspended(w', n)
        ensures n in w'.disk && w'.disk[n].pid && ProcsOf(w', n).launcher
      {
        assert ProcsOf(w', n) == ProcsOf(w, n) && RecordOf(w'.disk, n) == RecordOf(w.disk, n);
        assert IsSuspended(w, n);
      }
    }
  }

  /** A signal reaches the workload or is reported, and changes nothing but who is suspended. */
  lemma SignalEffect(p: Processes, signal: Signal, resolve: bool, undelivered: set<nat>)
    ensures var sent := SignalGroups(p, signal, resolve, undelivered);
            && sent.procs == p.(workload := sent.procs.workload, execs := sent.procs.execs)
            && (sent.procs.workload == if resolve && 0 !in undelivered then Deliver(p.workload, signal) else p.workload)
            && (sent.ok ==> resolve && sent.procs.workload == Deliver(p.workload, signal))
            && (resolve && undelivered == {} ==> sent.ok)
  {
  }

  /** The containers other than `name`, the host and, but for the status, the record are as they were. */
  ghost predicate OnlyStatus(w: World, w': World, name: string) {
    && w'.host == w.host && w'.foreground == w.foreground && w'.disk.Keys == w.disk.Keys
    && (forall n :: n in w.disk && n != name ==> w'.disk[n] == w.disk[n])
    && (name in w.disk ==>
          w'.disk[name].(paused := false, finished := false, launcherStarted := false)
          == w.disk[name].(paused := false, finished := false, launcherStarted := false))
    && (forall n :: n != name ==> ProcsOf(w', n) == ProcsOf(w, n))
    && ProcsOf(w', name).launcher == ProcsOf(w, name).launcher && ProcsOf(w', name).record == ProcsOf(w, name).record
  }

  /** Neither pause nor unpause, failed or not, changes PF, network or any other field but the status. */
  lemma PausingChangesOnlyStatus(w: World, name: string, c: Calls)
    ensures OnlyStatus(w, Pause(w, name, c).world, name) && OnlyStatus(w, Unpause(w, name, c).world, name)
  {
    PauseChangesOnlyStatus(w, name, c);
    UnpauseChangesOnlyStatus(w, name, c);
  }

  lemma PauseChangesOnlyStatus(w: World, name: string, c: Calls)
    ensures OnlyStatus(w, Pause(w, name, c).world, name)
  {
    if Begun(w, name, c).ok {
      var p := ProcsOf(w, name);
      SignalEffect(p, StopSignal, c.resolve, c.undelivered);
      SignalEffect(SignalGroups(p, StopSignal, c.resolve, c.undelivered).procs, ContinueSignal, c.resolve, {});
    }
  }

  lemma UnpauseChangesOnlyStatus(w: World, name: string, c: Calls)
    ensures OnlyStatus(w, Unpause(w, name, c).world, name)
  {
    if Begun(w, name, c).ok {
      var p := ProcsOf(w, name);
      SignalEffect(p, ContinueSignal, c.resolve, c.undelivered);
      SignalEffect(SignalGroups(p, ContinueSignal, c.resolve, c.undelivered).procs, StopSignal, c.resolve, {});
    }
  }

  /** A pause that succeeds suspends the workload and records it. One that fails leaves a running workload running and
      records nothing. */
  lemma PauseOutcome(w: World, name: string, c: Calls)
    ensures var out := Pause(w, name, c);
            && (out.ok ==>
                  ProcsOf(w, name).workload != Dead && IsSuspended(out.world, name) && RecordedPaused(out.world, name))
            && (!out.ok && ProcsOf(w, name).workload.Running? ==> ProcsOf(out.world, name).workload.Running?)
            && (!out.ok && !RecordedPaused(w, name) ==> !RecordedPaused(out.world, name))
  {
    if Begun(w, name, c).ok {
      var p := ProcsOf(w, name);
      SignalEffect(p, StopSignal, c.resolve, c.undelivered);
      SignalEffect(SignalGroups(p, StopSignal, c.resolve, c.undelivered).procs, ContinueSignal, c.resolve, {});
    }
  }

  /** An unpause that succeeds resumes the workload and records it. One that fails leaves a
      suspended workload suspended and recorded. */
  lemma UnpauseOutcome(w: World, name: string, c: Calls)
    requires NoOrphan(w)
    ensures var out := Unpause(w, name, c);
            && (out.ok ==> ProcsOf(out.world, name).workload.Running? && !RecordedPaused(out.world, name))
            && (!out.ok && IsSuspended(w, name) ==> IsSuspended(out.world, name) && RecordedPaused(out.world, name))
  {
    if name in w.disk {
      var p := ProcsOf(w, name);
      SignalEffect(p, ContinueSignal, c.resolve, c.undelivered);
      SignalEffect(SignalGroups(p, ContinueSignal, c.resolve, c.undelivered).procs, StopSignal, c.resolve, {});
      assert IsSuspended(w, name) ==> RecordedPaused(w, name);
    }
  }

  lemma PauseKeeps(w: World, name: string, c: Calls)
    requires NoOrphan(w)
    ensures NoOrphan(Pause(w, name, c).world)
    ensures Attended(w) ==> Attended(Pause(w, name, c).world)
  {
    if name in w.disk {
      var w' := Pause(w, name, c).world;
      var p := ProcsOf(w, name);
      PauseChangesOnlyStatus(w, name, c);
      SignalEffect(p, StopSignal, c.resolve, c.undelivered);
      SignalEffect(SignalGroups(p, StopSignal, c.resolve, c.undelivered).procs, ContinueSignal, c.resolve, {});
      assert IsSuspended(w, name) ==> RecordedPaused(w, name);
      OneContainer(w, w', name);
    }
  }

  lemma UnpauseKeeps(w: World, name: string, c: Calls)
    requires NoOrphan(w)
    ensures NoOrphan(Unpause(w, name, c).world)
    ensures Attended(w) ==> Attended(Unpause(w, name, c).world)
  {
    if name in w.disk {
      var w' := Unpause(w, name, c).world;
      var p := ProcsOf(w, name);
      UnpauseChangesOnlyStatus(w, name, c);
      SignalEffect(p, ContinueSignal, c.resolve, c.undelivered);
      SignalEffect(SignalGroups(p, ContinueSignal, c.resolve, c.undelivered).procs, StopSignal, c.resolve, {});
      assert IsSuspended(w, name) ==> RecordedPaused(w, name);
      OneContainer(w, w', name);
    }
  }

  /** What stop leaves of the container: nothing suspended once it has been resumed, no exit record of a live one. */
  lemma ResumedStaysResumed(w: World, name: string, m: Meta, c: Calls)
    requires !IsSuspended(w, name) && (ProcsOf(w, name).record ==> ProcsOf(w, name).workload.Dead?)
    ensures var w' := StopResumed(w, name, m, c).world;
            && TouchesOnly(w, w', name) && !IsSuspended(w', name)
            && (ProcsOf(w', name).record ==> ProcsOf(w', name).workload.Dead?)
  {
    StopResumedTouches(w, name, m, c);
  }

  lemma StopKeeps(w: World, name: string, c: Calls)
    requires NoOrphan(w)
    ensures NoOrphan(Stop(w, name, c).world)
    ensures Attended(w) ==> Attended(Stop(w, name, c).world)
    ensures Stop(w, name, c).ok ==> !IsSuspended(Stop(w, name, c).world, name)
  {
    if name in w.disk && c.refresh {
      var p := ProcsOf(w, name);
      var m := Refreshed(w.disk[name], p);
      assert IsSuspended(w, name) ==> RecordedPaused(w, name);
      SignalEffect(p, ContinueSignal, c.resolve, c.undelivered);
      if !(m.pid && m.launcherStarted && !(p.launcher && c.identity)) {
        StopBegunKeeps(w, name, m, c);
      }
    }
  }

  lemma StopBegunKeeps(w: World, name: string, m: Meta, c: Calls)
    requires NoOrphan(w) && (IsSuspended(w, name) ==> name in w.disk && m.paused)
    ensures NoOrphan(StopBegun(w, name, m, c).world)
    ensures Attended(w) ==> Attended(StopBegun(w, name, m, c).world)
    ensures StopBegun(w, name, m, c).ok ==> !IsSuspended(StopBegun(w, name, m, c).world, name)
  {
    var p := ProcsOf(w, name);
    var sent := Resume(m, p, c);
    SignalEffect(p, ContinueSignal, c.resolve, c.undelivered);
    assert IsSuspended(w, name) ==> RecordedPaused(w, name);
    var w' := StopBegun(w, name, m, c).world;
    if !sent.ok {
      OneContainer(w, w', name);
    } else {
      var w1 := WithProcs(w, name, StopExecs(sent.procs, c.stopExec, c.execsKilled));
      if c.stopExec {
        ResumedStaysResumed(w1, name, m.(paused := false), c);
      }
      assert TouchesOnly(w, w', name);
      OneContainer(w, w', name);
    }
  }

  lemma RunKeeps(w: World, r: Request, c: RunCalls)
    requires NoOrphan(w)
    ensures NoOrphan(Run(w, r, c).world)
    ensures Attended(w) ==> Attended(Run(w, r, c).world)
  {
    var w' := Run(w, r, c).world;
    RunEffect(w, r, c);
    if w'.disk == w.disk && w'.procs == w.procs {
      HostOnly(w, w');
    } else {
      OneContainer(w, w', r.name);
    }
  }

  lemma FinishKeeps(w: World, name: string, exitKnown: bool, c: Calls)
    requires NoOrphan(w)
    ensures NoOrphan(Finish(w, name, exitKnown, c).world)
    ensures Attended(w) ==> Attended(Finish(w, name, exitKnown, c).world)
  {
    if name in w.foreground {
      OneContainer(w, Finish(w, name, exitKnown, c).world, name);
    }
  }

  lemma HostOnly(w: World, w': World)
    requires w'.disk == w.disk && w'.procs == w.procs && NoOrphan(w)
    ensures NoOrphan(w') && (Attended(w) ==> Attended(w'))
  {
    forall n | IsSuspended(w', n)
      ensures RecordedPaused(w', n)
    {
      assert IsSuspended(w, n);
      assert RecordedPaused(w, n);
    }
    assert forall n :: ProcsOf(w', n) == ProcsOf(w, n);
    if Attended(w) {
      forall n | IsSuspended(w', n)
        ensures n in w'.disk && w'.disk[n].pid && ProcsOf(w', n).launcher
      {
        assert IsSuspended(w, n);
      }
    }
  }

  lemma EnvironmentKeeps(w: World, e: Event)
    requires NoOrphan(w) && EnvironmentStep(e)
    ensures NoOrphan(Step(w, e))
    ensures Attended(w) && !e.LauncherKilled? ==> Attended(Step(w, e))
  {
    if e.InterfaceAppears? || e.InterfaceVanishes? {
      HostOnly(w, Step(w, e));
    } else {
      assert IsSuspended(w, e.name) ==> RecordedPaused(w, e.name);
      OneContainer(w, Step(w, e), e.name);
    }
  }

  predicate RemovesUnresumed(e: Event) {
    e.RmEvent? || e.PsEvent?
  }

  /** Without rm and ps, whatever the environment does. */
  lemma StepKeeps(w: World, e: Event)
    requires NoOrphan(w) && !RemovesUnresumed(e)
    ensures NoOrphan(Step(w, e))
    ensures Attended(w) && !e.LauncherKilled? ==> Attended(Step(w, e))
  {
    match e
    case RunEvent(r, c) => RunKeeps(w, r, c);
    case FinishEvent(name, exitKnown, c) => FinishKeeps(w, name, exitKnown, c);
    case PauseEvent(name, c) => PauseKeeps(w, name, c);
    case UnpauseEvent(name, c) => UnpauseKeeps(w, name, c);
    case StopEvent(name, c) => StopKeeps(w, name, c);
    case _ => EnvironmentKeeps(w, e);
  }

  /** A container that is neither running nor paused has no suspended workload, as long as launchers do not die
      alone. */
  lemma DeadIsNotSuspended(w: World, name: string)
    requires NoOrphan(w) && Attended(w) && name in w.disk
    requires !Live(StatusOf(Refreshed(w.disk[name], ProcsOf(w, name)), ProcsOf(w, name).launcher))
             || !Live(StatusOf(w.disk[name], ProcsOf(w, name).launcher))
    ensures !IsSuspended(w, name)
  {
  }

  /** A record goes with nothing suspended. */
  lemma RemoveKeeps(w: World, name: string, ok: bool)
    requires NoOrphan(w) && Attended(w) && !IsSuspended(w, name)
    ensures NoOrphan(Remove(w, name, ok).world) && Attended(Remove(w, name, ok).world)
  {
    OneContainer(w, Remove(w, name, ok).world, name);
  }

  lemma RmDeadKeeps(w: World, name: string, m: Meta, c: Calls)
    requires NoOrphan(w) && Attended(w) && !IsSuspended(w, name)
    ensures NoOrphan(RmDead(w, name, m, c).world) && Attended(RmDead(w, name, m, c).world)
  {
    var w1 := w.(host := Cleanup(w.host, w.disk, name, m, c.cleanup).host);
    HostOnly(w, w1);
    RemoveKeeps(w1, name, c.remove);
  }

  lemma RmKeeps(w: World, name: string, force: bool, c: Calls)
    requires NoOrphan(w) && Attended(w)
    ensures NoOrphan(Rm(w, name, force, c).world) && Attended(Rm(w, name, force, c).world)
  {
    if name in w.disk && c.status {
      var m, p := w.disk[name], ProcsOf(w, name);
      if Live(StatusOf(m, p.launcher)) {
        StopKeeps(w, name, c);
        if Stop(w, name, c).ok {
          RemoveKeeps(Stop(w, name, c).world, name, c.remove);
        }
      } else {
        DeadIsNotSuspended(w, name);
        var w1 := WithProcs(w, name, StopExecs(p, c.stopExec, c.execsKilled));
        OneContainer(w, w1, name);
        if c.stopExec { RmDeadKeeps(w1, name, m, c); }
      }
    }
  }

  lemma PsOneKeeps(w: World, name: string, c: Calls)
    requires NoOrphan(w) && Attended(w)
    ensures NoOrphan(PsOne(w, name, c).world) && Attended(PsOne(w, name, c).world)
  {
    if name in w.disk && c.refresh && c.status {
      assert IsSuspended(w, name) ==> RecordedPaused(w, name);
      var w' := PsOne(w, name, c).world;
      PsOneLeaves(w, name, c);
      if !Live(StatusOf(Refreshed(w.disk[name], ProcsOf(w, name)), ProcsOf(w, name).launcher)) {
        DeadIsNotSuspended(w, name);
      }
      OneContainer(w, w', name);
    }
  }

  lemma {:induction false} PsKeeps(w: World, names: seq<string>, each: string -> Calls)
    requires NoOrphan(w) && Attended(w)
    ensures NoOrphan(Ps(w, names, each).world) && Attended(Ps(w, names, each).world)
    decreases |names|
  {
    if names != [] {
      PsOneKeeps(w, names[0], each(names[0]));
      var first := PsOne(w, names[0], each(names[0]));
      if first.ok {
        PsKeeps(first.world, names[1..], each);
      }
    }
  }

  /** No orphaned suspension, whatever signals, writes and the environment do: in every run of commands other than rm
      and ps, every suspended workload is recorded as paused at each command's end. */
  lemma {:induction false} SuspensionIsRecorded(w: World, events: seq<Event>)
    requires Initial(w) && forall e :: e in events ==> !RemovesUnresumed(e)
    ensures NoOrphan(Execute(w, events))
    decreases |events|
  {
    if events != [] {
      var before := events[..|events| - 1];
      SuspensionIsRecorded(w, before);
      StepKeeps(Execute(w, before), events[|events| - 1]);
    }
  }

  /** The same with rm and ps, for runs in which no launcher is killed alone. */
  lemma {:induction false} SuspensionIsAttended(w: World, events: seq<Event>)
    requires Initial(w) && forall e :: e in events ==> !e.LauncherKilled?
    ensures NoOrphan(Execute(w, events)) && Attended(Execute(w, events))
    decreases |events|
  {
    if events != [] {
      var before, e := events[..|events| - 1], events[|events| - 1];
      SuspensionIsAttended(w, before);
      var v := Execute(w, before);
      match e
      case RmEvent(name, force, c) => RmKeeps(v, name, force, c);
      case PsEvent(names, each) => PsKeeps(v, names, each);
      case _ => StepKeeps(v, e);
    }
  }

  /** A stop that fails keeps the record. */
  lemma FailedStopKeepsRecord(w: World, name: string, c: Calls)
    requires name in w.disk && !Stop(w, name, c).ok
    ensures name in Stop(w, name, c).world.disk
  {
    if c.refresh {
      var m := Refreshed(w.disk[name], ProcsOf(w, name));
      var sent := Resume(m, ProcsOf(w, name), c);
      var w1 := WithProcs(w, name, StopExecs(sent.procs, c.stopExec, c.execsKilled));
      ResumedKeepsRecord(w1, name, m.(paused := false), c);
    }
  }

  lemma ResumedKeepsRecord(w: World, name: string, m: Meta, c: Calls)
    requires name in w.disk
    ensures StopResumed(w, name, m, c).ok || name in StopResumed(w, name, m, c).world.disk
  {
  }

  lemma FailedRmKeepsRecord(w: World, name: string, force: bool, c: Calls)
    requires name in w.disk && !Rm(w, name, force, c).ok
    ensures name in Rm(w, name, force, c).world.disk
  {
    if !Stop(w, name, c).ok {
      FailedStopKeepsRecord(w, name, c);
    } else if !w.disk[name].autoRemove {
      StopKeepsRecord(w, name, c);
    }
  }

  lemma StopKeepsRecord(w: World, name: string, c: Calls)
    requires name in w.disk && Stop(w, name, c).ok && !w.disk[name].autoRemove
    ensures name in Stop(w, name, c).world.disk
  {
  }

  /** Exactly when an rm, forced or not, failing or not, leaves a suspended workload without a record: it goes through,
      and its container passed for neither running nor paused. */
  lemma RmOrphansExactly(w: World, name: string, force: bool, c: Calls)
    requires NoOrphan(w) && name in w.disk
    ensures IsSuspended(Rm(w, name, force, c).world, name) && name !in Rm(w, name, force, c).world.disk <==>
              && Rm(w, name, force, c).ok && IsSuspended(w, name)
              && !Live(StatusOf(w.disk[name], ProcsOf(w, name).launcher))
  {
    if !Rm(w, name, force, c).ok {
      FailedRmKeepsRecord(w, name, force, c);
    } else if Live(StatusOf(w.disk[name], ProcsOf(w, name).launcher)) {
      StopKeeps(w, name, c);
    }
  }

  /** A turn of ps leaves the workload as it is, and the record too if it fails. */
  lemma PsTurn(w: World, name: string, c: Calls)
    ensures var w' := PsOne(w, name, c).world;
            && ProcsOf(w', name).workload == ProcsOf(w, name).workload
            && ProcsOf(w', name).record == ProcsOf(w, name).record
            && ProcsOf(w', name).launcher == ProcsOf(w, name).launcher
            && (name in w.disk && !PsOne(w, name, c).ok ==> name in w'.disk)
  {
  }

  /** What a turn of ps does to a suspended workload whose launcher is gone without an exit record: it stays suspended,
      and its record goes exactly when the turn goes through and automatic removal was asked for. */
  lemma PsOrphansExactly(w: World, name: string, c: Calls)
    requires NoOrphan(w) && name in w.disk
    ensures var w' := PsOne(w, name, c).world;
            IsSuspended(w', name) && name !in w'.disk <==>
              && PsOne(w, name, c).ok && IsSuspended(w, name) && w.disk[name].autoRemove
              && !Live(StatusOf(w.disk[name], ProcsOf(w, name).launcher))
  {
    PsTurn(w, name, c);
    if PsOne(w, name, c).ok && IsSuspended(w, name) {
      PsOneOrphans(w, name, c);
    }
  }

  lemma PsOneOrphans(w: World, name: string, c: Calls)
    requires name in w.disk && PsOne(w, name, c).ok && IsSuspended(w, name) && !ProcsOf(w, name).record
    ensures var w' := PsOne(w, name, c).world;
            && (name in w'.disk <==>
                  !w.disk[name].autoRemove || Live(StatusOf(w.disk[name], ProcsOf(w, name).launcher)))
            && (name in w'.disk ==> w'.disk[name].(pfAnchor := None, pfToken := None, net := None)
                                    == w.disk[name].(pfAnchor := None, pfToken := None, net := None))
  {
    if !Live(StatusOf(w.disk[name], ProcsOf(w, name).launcher)) {
      CleanedFields(w.host, w.disk, name, w.disk[name], c.cleanup);
    }
  }

  /** The loop of ps comes to `n`, and all turns up to and including its own go through. */
  predicate PsDealsWith(w: World, names: seq<string>, each: string -> Calls, n: string)
    decreases |names|
  {
    && names != []
    && var first := PsOne(w, names[0], each(names[0]));
       first.ok && (names[0] == n || PsDealsWith(first.world, names[1..], each, n))
  }

  /** The same for every ps, whichever containers it lists in whatever order and wherever it fails. */
  lemma {:induction false} PsListOrphansExactly(w: World, names: seq<string>, each: string -> Calls, n: string)
    requires n in w.disk && IsSuspended(w, n) && !ProcsOf(w, n).record
    ensures var w' := Ps(w, names, each).world;
            && IsSuspended(w', n)
            && (n !in w'.disk <==>
                  && PsDealsWith(w, names, each, n) && w.disk[n].autoRemove
                  && !Live(StatusOf(w.disk[n], ProcsOf(w, n).launcher)))
    decreases |names|
  {
    if names != [] {
      var first := PsOne(w, names[0], each(names[0]));
      PsOneLeaves(w, names[0], each(names[0]));
      PsTurn(w, names[0], each(names[0]));
      if n == names[0] {
        if first.ok { PsAfterItsTurn(w, names, each, n); }
      } else {
        assert RecordOf(first.world.disk, n) == RecordOf(w.disk, n) && ProcsOf(first.world, n) == ProcsOf(w, n);
        if first.ok { PsListOrphansExactly(first.world, names[1..], each, n); }
      }
    }
  }

  lemma {:induction false} PsAfterItsTurn(w: World, names: seq<string>, each: string -> Calls, n: string)
    requires n in w.disk && IsSuspended(w, n) && !ProcsOf(w, n).record
    requires names != [] && names[0] == n && PsOne(w, n, each(n)).ok
    ensures var w' := Ps(w, names, each).world;
            && IsSuspended(w', n)
            && (n !in w'.disk <==> w.disk[n].autoRemove && !Live(StatusOf(w.disk[n], ProcsOf(w, n).launcher)))
    decreases |names|, 0
  {
    var first := PsOne(w, n, each(n));
    PsTurn(w, n, each(n));
    PsOneOrphans(w, n, each(n));
    if n !in first.world.disk {
      PsLeavesGone(first.world, names[1..], each, n);
    } else {
      PsListOrphansExactly(first.world, names[1..], each, n);
    }
  }

  /** A container without a record is nothing to ps. */
  lemma {:induction false} PsLeavesGone(w: World, names: seq<string>, each: string -> Calls, n: string)
    requires n !in w.disk
    ensures var w' := Ps(w, names, each).world; n !in w'.disk && ProcsOf(w', n) == ProcsOf(w, n)
    decreases |names|
  {
    if names != [] {
      var first := PsOne(w, names[0], each(names[0]));
      PsOneLeaves(w, names[0], each(names[0]));
      if first.ok {
        PsLeavesGone(first.world, names[1..], each, n);
      }
    }
  }

  /** Paused, and then left by a launcher that was killed alone. */
  function Abandoned(name: string, autoRemove: bool): seq<Event> {
    [FirstRunEvent(name, autoRemove), PauseEvent(name, ALL_WELL), LauncherKilled(name)]
  }

  lemma AbandonedWorld(name: string, autoRemove: bool)
    ensures Initial(EMPTY_WORLD)
    ensures var v := Execute(EMPTY_WORLD, Abandoned(name, autoRemove));
            && v.disk == FirstWorld(name, autoRemove,
                 RUNNING).disk[name := FirstWorld(name, autoRemove, RUNNING).disk[name].(paused := true)]
            && ProcsOf(v, name) == Processes(false, Suspended, [], false)
  {
    var w := FirstWorld(name, autoRemove, RUNNING);
    FirstExit(name, autoRemove);
    ThreeEvents(EMPTY_WORLD, FirstRunEvent(name, autoRemove), PauseEvent(name, ALL_WELL), LauncherKilled(name));
    PauseFirst(name, autoRemove);
  }

  lemma PauseFirst(name: string, autoRemove: bool)
    ensures var w := FirstWorld(name, autoRemove, RUNNING);
            && Pause(w, name, ALL_WELL).world.disk == w.disk[name := w.disk[name].(paused := true)]
            && ProcsOf(Pause(w, name, ALL_WELL).world, name) == Processes(true, Suspended, [], false)
  {
    SignalEffect(RUNNING, StopSignal, true, {});
  }

  /** When the launcher of a paused container is killed alone, rm takes the container for exited and removes its record
      while the workload stays suspended. */
  lemma RmCanOrphan(name: string)
    ensures var v := Step(Execute(EMPTY_WORLD, Abandoned(name, false)), RmEvent(name, false, ALL_WELL));
            Initial(EMPTY_WORLD) && IsSuspended(v, name) && name !in v.disk
  {
    AbandonedWorld(name, false);
    RmAfterKill(Execute(EMPTY_WORLD, Abandoned(name, false)), name);
  }

  /** So does ps when automatic removal was asked for. */
  lemma PsCanOrphan(name: string)
    ensures var v := Step(Execute(EMPTY_WORLD, Abandoned(name, true)), PsOf(name, ALL_WELL));
            Initial(EMPTY_WORLD) && IsSuspended(v, name) && name !in v.disk
  {
    var v := Execute(EMPTY_WORLD, Abandoned(name, true));
    AbandonedWorld(name, true);
    PsOfOne(v, name, ALL_WELL);
    PsAfterKill(v, name);
  }

  lemma RmAfterKill(w: World, name: string)
    requires name in w.disk && w.disk[name].pid && ProcsOf(w, name) == Processes(false, Suspended, [], false)
    ensures name !in Rm(w, name, false, ALL_WELL).world.disk && IsSuspended(Rm(w, name, false, ALL_WELL).world, name)
  {
    CleanedNetwork(w, name, w.disk[name], ALL_SUCCEED);
    AllSucceed(w, name, w.disk[name]);
  }

  lemma PsAfterKill(w: World, name: string)
    requires name in w.disk && w.disk[name].pid && ProcsOf(w, name) == Processes(false, Suspended, [], false)
    requires w.disk[name].autoRemove
    ensures name !in PsOne(w, name, ALL_WELL).world.disk && IsSuspended(PsOne(w, name, ALL_WELL).world, name)
  {
    CleanedNetwork(w, name, w.disk[name], ALL_SUCCEED);
    AllSucceed(w, name, w.disk[name]);
  }

  lemma AllSucceed(w: World, name: string, m: Meta)
    ensures PFGoes(m, ALL_SUCCEED) && (m.net.Some? ==> NetworkGoes(w, name, m, ALL_SUCCEED))
  {
  }
}
