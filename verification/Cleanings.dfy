/** Which cleanup a command comes to, and what becomes of the record afterwards. */
module Cleanings {
  import opened Text
  import opened Lifecycle
  import opened Ledger

  /** Whether a command comes to clean up, the metadata it cleans up by, and whether a record whose network is gone is
      written, or removed, for good. */
  datatype Cleaning = Cleaning(reached: bool, meta: Meta, lands: bool)

  /** Anchor and token go, as far as there are any. */
  predicate PFGoes(m: Meta, c: CleanupCalls) {
    (m.pfAnchor.Some? ==> c.flush) && (m.pfToken.Some? ==> c.release)
  }

  function StopCleaning(w: World, name: string, c: Calls): Cleaning {
    var p := ProcsOf(w, name);
    var m := Refreshed(RecordOf(w.disk, name), p);
    Cleaning(
      && name in w.disk && c.refresh && !(m.pid && m.launcherStarted && !(p.launcher && c.identity))
      && Resume(m, p, c).ok && c.stopExec
      && if m.pid then c.alive && (p.launcher ==> c.terminate) else m.stopped,
      m.(paused := false),
      PFGoes(m, c.cleanup) && c.write && (m.pid ==> c.refreshAgain))
  }

  function RmCleaning(w: World, name: string, force: bool, c: Calls): Cleaning {
    var m := RecordOf(w.disk, name);
    if name in w.disk && c.status && Live(StatusOf(m, ProcsOf(w, name).launcher)) then
      var stop := StopCleaning(w, name, c);
      stop.(reached := force && stop.reached)
    else Cleaning(name in w.disk && c.status && c.stopExec, m, PFGoes(m, c.cleanup) && c.remove)
  }

  function PsCleaning(w: World, name: string, c: Calls): Cleaning {
    var p := ProcsOf(w, name);
    var m := Refreshed(RecordOf(w.disk, name), p);
    Cleaning(name in w.disk && c.refresh && c.status && !Live(StatusOf(m, p.launcher)) && c.stopExec, m,
             PFGoes(m, c.cleanup) && c.write)
  }

  function FinishCleaning(w: World, name: string, exitKnown: bool, c: Calls): Cleaning {
    Cleaning(name in w.foreground, FinishedMeta(RecordOf(w.foreground, name), exitKnown), c.write)
  }

  /** The container's interface goes and, if it comes to that, the bridge. */
  function NetworkGoes(w: World, name: string, m: Meta, c: CleanupCalls): bool {
    m.net.Some? && CleanupNetwork(CleanupPF(w.host, m, c).host, w.disk, name, m.net.value, c).ok
  }

  ghost predicate OthersKeep(w: World, w': World, name: string) {
    forall n :: n != name ==> (n in w'.disk <==> n in w.disk) && RecordOf(w'.disk, n) == RecordOf(w.disk, n)
  }

  /** From `w` to `w'` one container has been dealt with as the cleaning says. */
  ghost predicate CleansAs(w: World, w': World, name: string, cleaning: Cleaning, c: CleanupCalls) {
    && OthersKeep(w, w', name)
    && (cleaning.reached ==>
          && name in w.disk && SameResources(cleaning.meta, w.disk[name])
          && w'.host == Cleanup(w.host, w.disk, name, cleaning.meta, c).host
          && NetworkKept(w, w', name, NetworkGoes(w, name, cleaning.meta, c) && cleaning.lands))
    && (!cleaning.reached ==> w'.host == w.host && NetworkKept(w, w', name, false))
  }

  /** The record names the network it named, unless that is gone for good. */
  ghost predicate NetworkKept(w: World, w': World, name: string, gone: bool) {
    if gone then name in w'.disk ==> w'.disk[name].net.None?
    else if name in w.disk && w.disk[name].net.Some? then name in w'.disk && w'.disk[name].net == w.disk[name].net
    else name in w'.disk ==> w'.disk[name].net.None?
  }

  /** What a cleanup says of the network and of its own success. */
  lemma CleanedNetwork(w: World, name: string, m: Meta, c: CleanupCalls)
    ensures var done := Cleanup(w.host, w.disk, name, m, c);
            && done.meta.net == (if NetworkGoes(w, name, m, c) then None else m.net)
            && done.ok == (PFGoes(m, c) && (m.net.Some? ==> NetworkGoes(w, name, m, c)))
  {
    CleanedFields(w.host, w.disk, name, m, c);
  }

  lemma StopDetachedCleans(w: World, name: string, m: Meta, p: Processes, c: Calls)
    requires name in w.disk && SameResources(m, w.disk[name])
    ensures CleansAs(w, StopDetached(w, name, m, p, c).world, name,
                     Cleaning(true, m, PFGoes(m, c.cleanup) && c.write && c.refreshAgain), c.cleanup)
  {
    CleanedNetwork(w, name, m, c.cleanup);
  }

  lemma StopAgainCleans(w: World, name: string, m: Meta, c: Calls)
    requires name in w.disk && SameResources(m, w.disk[name])
    ensures CleansAs(w, StopAgain(w, name, m, c).world, name,
                     Cleaning(m.stopped, m, PFGoes(m, c.cleanup) && c.write), c.cleanup)
  {
    CleanedNetwork(w, name, m, c.cleanup);
  }

  /** Processes do not matter to a cleanup. */
  lemma CleansWhateverRuns(w: World, v: World, w': World, name: string, cleaning: Cleaning, c: CleanupCalls)
    requires v.disk == w.disk && v.host == w.host && CleansAs(v, w', name, cleaning, c)
    ensures CleansAs(w, w', name, cleaning, c)
  {
  }

  lemma StopResumedCleans(w: World, name: string, m: Meta, c: Calls)
    requires name in w.disk && SameResources(m, w.disk[name])
    ensures CleansAs(w, StopResumed(w, name, m, c).world, name,
                     Cleaning(if m.pid then c.alive && (ProcsOf(w, name).launcher ==> c.terminate) else m.stopped, m,
                              PFGoes(m, c.cleanup) && c.write && (m.pid ==> c.refreshAgain)), c.cleanup)
  {
    var p := Terminated(ProcsOf(w, name), c);
    if !m.pid {
      StopAgainCleans(w, name, m, c);
    } else if c.alive && (ProcsOf(w, name).launcher ==> c.terminate) {
      var w1 := WithProcs(w, name, p);
      StopDetachedCleans(w1, name, m, p, c);
      CleansWhateverRuns(w, w1, StopDetached(w1, name, m, p, c).world, name,
                         Cleaning(true, m, PFGoes(m, c.cleanup) && c.write && c.refreshAgain), c.cleanup);
    }
  }

  lemma NothingCleaned(w: World, w': World, name: string, meta: Meta, lands: bool, c: CleanupCalls)
    requires w'.disk == w.disk && w'.host == w.host
    ensures CleansAs(w, w', name, Cleaning(false, meta, lands), c)
  {
  }

  lemma StopCleans(w: World, name: string, c: Calls)
    ensures CleansAs(w, Stop(w, name, c).world, name, StopCleaning(w, name, c), c.cleanup)
  {
    var cleaning := StopCleaning(w, name, c);
    var p := ProcsOf(w, name);
    var m := Refreshed(RecordOf(w.disk, name), p);
    var sent := Resume(m, p, c);
    var w1 := WithProcs(w, name, StopExecs(sent.procs, c.stopExec, c.execsKilled));
    if name in w.disk && c.refresh && !(m.pid && m.launcherStarted && !(p.launcher && c.identity)) && sent.ok
      && c.stopExec {
      assert ProcsOf(w1, name).launcher == p.launcher;
      StopResumedCleans(w1, name, m.(paused := false), c);
      CleansWhateverRuns(w, w1, Stop(w, name, c).world, name, cleaning, c.cleanup);
    } else {
      NothingCleaned(w, Stop(w, name, c).world, name, cleaning.meta, cleaning.lands, c.cleanup);
    }
  }

  lemma RmDeadCleans(w: World, name: string, c: Calls)
    requires name in w.disk
    ensures var m := w.disk[name];
            CleansAs(w, RmDead(w, name, m, c).world, name, Cleaning(true, m, PFGoes(m, c.cleanup) && c.remove),
                c.cleanup)
  {
    CleanedNetwork(w, name, w.disk[name], c.cleanup);
  }

  lemma RmCleans(w: World, name: string, force: bool, c: Calls)
    ensures CleansAs(w, Rm(w, name, force, c).world, name, RmCleaning(w, name, force, c), c.cleanup)
  {
    var cleaning, w' := RmCleaning(w, name, force, c), Rm(w, name, force, c).world;
    if name in w.disk && c.status {
      var m, p := w.disk[name], ProcsOf(w, name);
      if Live(StatusOf(m, p.launcher)) {
        if force {
          StopCleans(w, name, c);
          var stopped := Stop(w, name, c);
          StopIsTidy(w, name, c);
          RemovalChangesNothing(w, stopped.world, w', name, cleaning, c.cleanup, stopped.ok);
        }
      } else if c.stopExec {
        var w1 := WithProcs(w, name, StopExecs(p, c.stopExec, c.execsKilled));
        RmDeadCleans(w1, name, c);
        CleansWhateverRuns(w, w1, w', name, cleaning, c.cleanup);
      } else {
        NothingCleaned(w, w', name, cleaning.meta, cleaning.lands, c.cleanup);
      }
    }
  }

  /** A record without a network may go afterwards. */
  lemma RemovalChangesNothing(w: World, v: World, w': World, name: string, cleaning: Cleaning, c: CleanupCalls,
        may: bool)
    requires CleansAs(w, v, name, cleaning, c) && w'.host == v.host
    requires may && name in v.disk ==> v.disk[name].net.None?
    requires w'.disk == v.disk || (may && w'.disk == v.disk - {name})
    ensures CleansAs(w, w', name, cleaning, c)
  {
  }

  lemma PsDeadCleans(w: World, name: string, m: Meta, changed: bool, c: Calls)
    requires name in w.disk && SameResources(m, w.disk[name])
    ensures CleansAs(w, PsDead(w, name, m, changed, c).world, name,
                     Cleaning(true, m, PFGoes(m, c.cleanup) && c.write), c.cleanup)
  {
    CleanedNetwork(w, name, m, c.cleanup);
  }

  lemma PsOneCleans(w: World, name: string, c: Calls)
    ensures CleansAs(w, PsOne(w, name, c).world, name, PsCleaning(w, name, c), c.cleanup)
  {
    var cleaning := PsCleaning(w, name, c);
    var p := ProcsOf(w, name);
    if cleaning.reached {
      var w1 := WithProcs(w, name, StopExecs(p, c.stopExec, c.execsKilled));
      PsDeadCleans(w1, name, cleaning.meta, RefreshChanges(w.disk[name], p), c);
      CleansWhateverRuns(w, w1, PsOne(w, name, c).world, name, cleaning, c.cleanup);
    }
  }

  lemma FinishRecordCleans(w: World, name: string, m: Meta, c: Calls)
    requires name in w.disk && SameResources(m, w.disk[name])
    ensures CleansAs(w, FinishRecord(w, name, m, c).world, name, Cleaning(true, m, c.write), c.cleanup)
  {
    CleanedNetwork(w, name, m, c.cleanup);
  }

  lemma FinishCleans(w: World, name: string, exitKnown: bool, c: Calls)
    requires ForegroundPending(w)
    ensures CleansAs(w, Finish(w, name, exitKnown, c).world, name, FinishCleaning(w, name, exitKnown, c), c.cleanup)
  {
    var cleaning := FinishCleaning(w, name, exitKnown, c);
    if name in w.foreground {
      assert Pending(w, name);
      var ended := ProcsOf(w, name).(workload := Dead, record := exitKnown);
      var w1 := WithProcs(w.(foreground := w.foreground - {name}), name, ended);
      FinishRecordCleans(w1, name, cleaning.meta, c);
      CleansWhateverRuns(w, w1, Finish(w, name, exitKnown, c).world, name, cleaning, c.cleanup);
    }
  }
}
