/** The resource ledger: in every run, whatever fails, each PF anchor, token and interface of Macker's is named by some
    metadata on disk. */
module Ledger {
  import opened Text
  import opened Network
  import opened Lifecycle

  ghost predicate NamesAnchor(disk: Disk, n: string, a: string) {
    n in disk && disk[n].pfAnchor == Some(a)
  }

  ghost predicate NamesToken(disk: Disk, n: string, t: nat) {
    n in disk && disk[n].pfToken == Some(t)
  }

  /** The metadata of `n` says that Macker made interface `s` for it. */
  ghost predicate NamesIface(disk: Disk, n: string, s: string) {
    n in disk && disk[n].net.Some? && disk[n].net.value.ifaceOwned && disk[n].net.value.iface == s
  }

  ghost predicate OwnIface(h: Host, s: string) {
    s in h.ifaces && h.ifaces[s].mine && s != HOST_BRIDGE
  }

  /** Nothing is leaked. */
  ghost predicate Named(disk: Disk, h: Host) {
    && (forall a :: a in h.anchors ==> exists n :: NamesAnchor(disk, n, a))
    && (forall t :: t in h.tokens ==> exists n :: NamesToken(disk, n, t))
    && (forall s :: OwnIface(h, s) ==> exists n :: NamesIface(disk, n, s))
  }

  ghost predicate Slotted(config: NetConfig, i: nat) {
    1 <= i <= LIMIT && config.iface == SlotName(i) && config.ip == SlotIP(i)
  }

  /** What metadata may say: anchors are the container's own, owned interfaces are slots, no two containers own the
      same one, and of host interfaces only the bridge is owned. */
  ghost predicate Sound(disk: Disk) {
    && (forall n, a :: NamesAnchor(disk, n, a) ==> a == AnchorFor(n))
    && (forall n, s :: NamesIface(disk, n, s) ==> exists i :: Slotted(disk[n].net.value, i))
    && (forall n, m, s :: NamesIface(disk, n, s) && NamesIface(disk, m, s) ==> n == m)
    && (forall n :: n in disk ==> OwnsOnlyTheBridge(disk[n]))
  }

  predicate OwnsOnlyTheBridge(m: Meta) {
    m.net.Some? && m.net.value.hostOwned ==> m.net.value.hostInterface == HOST_BRIDGE
  }

  /** A foreground run not yet finished: its record on disk is the one in memory and says no more than that it
      started. */
  ghost predicate Pending(w: World, n: string) {
    && n in w.foreground && n in w.disk && w.disk[n] == w.foreground[n]
    && !w.disk[n].pid && !w.disk[n].stopped && !w.disk[n].finished && !w.disk[n].paused
    && !ProcsOf(w, n).launcher && !ProcsOf(w, n).record
  }

  ghost predicate ForegroundPending(w: World) {
    forall n :: n in w.foreground ==> Pending(w, n)
  }

  ghost predicate Inv(w: World) {
    Named(w.disk, w.host) && Sound(w.disk) && ForegroundPending(w)
  }

  ghost predicate SameResources(a: Meta, b: Meta) {
    a.mode == b.mode && a.ports == b.ports && a.pfAnchor == b.pfAnchor && a.pfToken == b.pfToken && a.net == b.net
  }

  /** `b` publishes what `a` does and names no more than it. */
  ghost predicate FewerResources(b: Meta, a: Meta) {
    && b.mode == a.mode && b.ports == a.ports
    && (b.pfAnchor == a.pfAnchor || b.pfAnchor.None?) && (b.pfToken == a.pfToken || b.pfToken.None?)
    && (b.net == a.net || b.net.None?)
  }

  /** What `m` names and `b` does not is gone from the host. */
  ghost predicate Released(h: Host, m: Meta, b: Meta) {
    && (m.pfAnchor.Some? && b.pfAnchor.None? ==> m.pfAnchor.value !in h.anchors)
    && (m.pfToken.Some? && b.pfToken.None? ==> m.pfToken.value !in h.tokens)
    && (m.net.Some? && b.net.None? && m.net.value.ifaceOwned && m.net.value.iface != "" ==>
            m.net.value.iface !in h.ifaces)
  }

  /** Only less than before: no anchor, token or interface is new or changed. */
  ghost predicate Shrunk(h': Host, h: Host) {
    && (forall a :: a in h'.anchors ==> a in h.anchors && h'.anchors[a] == h.anchors[a])
    && h'.tokens <= h.tokens
    && (forall s :: s in h'.ifaces ==> s in h.ifaces && h'.ifaces[s] == h.ifaces[s])
  }

  const NO_META := Meta(HostMode, [], None, None, None, false, false, false, false, false, false)

  function RecordOf(disk: Disk, n: string): Meta {
    if n in disk then disk[n] else NO_META
  }

  /** From one world to a later one, metadata was cleared or removed only for what had gone from the host. */
  ghost predicate Tidy(w: World, w': World) {
    && Shrunk(w'.host, w.host)
    && (forall n :: n in w'.disk ==> n in w.disk && FewerResources(w'.disk[n], w.disk[n]))
    && (forall n :: n in w.disk ==> Released(w'.host, w.disk[n], RecordOf(w'.disk, n)))
  }

  lemma TidyTransitive(a: World, b: World, c: World)
    requires Tidy(a, b) && Tidy(b, c)
    ensures Tidy(a, c)
  {
    forall n | n in a.disk
      ensures Released(c.host, a.disk[n], RecordOf(c.disk, n))
    {
      assert Released(b.host, a.disk[n], RecordOf(b.disk, n));
      if n in b.disk {
        assert FewerResources(b.disk[n], a.disk[n]);
        assert Released(c.host, b.disk[n], RecordOf(c.disk, n));
      }
    }
  }

  lemma SlotNamesNotEmpty(w: World, n: string, s: string)
    requires Sound(w.disk) && NamesIface(w.disk, n, s)
    ensures s != ""
  {
    var i :| Slotted(w.disk[n].net.value, i);
    assert |SlotName(i)| >= |HOST_BRIDGE|;
  }

  lemma TidyKeepsNamed(w: World, w': World)
    requires Named(w.disk, w.host) && Sound(w.disk) && Tidy(w, w')
    ensures Named(w'.disk, w'.host)
  {
    forall a | a in w'.host.anchors
      ensures exists n :: NamesAnchor(w'.disk, n, a)
    {
      var n :| NamesAnchor(w.disk, n, a);
      assert NamesAnchor(w'.disk, n, a);
    }
    forall t | t in w'.host.tokens
      ensures exists n :: NamesToken(w'.disk, n, t)
    {
      var n :| NamesToken(w.disk, n, t);
      assert NamesToken(w'.disk, n, t);
    }
    forall s | OwnIface(w'.host, s)
      ensures exists n :: NamesIface(w'.disk, n, s)
    {
      assert OwnIface(w.host, s);
      var n :| NamesIface(w.disk, n, s);
      SlotNamesNotEmpty(w, n, s);
      assert NamesIface(w'.disk, n, s);
    }
  }

  lemma TidyKeepsSound(w: World, w': World)
    requires Sound(w.disk) && Tidy(w, w')
    ensures Sound(w'.disk)
  {
    forall n, s | NamesIface(w'.disk, n, s)
      ensures NamesIface(w.disk, n, s) && w'.disk[n].net == w.disk[n].net
    {
    }
    forall n, a | NamesAnchor(w'.disk, n, a)
      ensures a == AnchorFor(n)
    {
      assert NamesAnchor(w.disk, n, a);
    }
    forall n, m, s | NamesIface(w'.disk, n, s) && NamesIface(w'.disk, m, s)
      ensures n == m
    {
      assert NamesIface(w.disk, n, s) && NamesIface(w.disk, m, s);
    }
    forall n, s | NamesIface(w'.disk, n, s)
      ensures exists i :: Slotted(w'.disk[n].net.value, i)
    {
      var i :| Slotted(w.disk[n].net.value, i);
      assert Slotted(w'.disk[n].net.value, i);
    }
  }

  /** Fields are cleared only when what they name is gone, and a cleanup that succeeds clears them all. */
  ghost predicate CleanedUp(h: Host, m: Meta, done: Cleaned) {
    && Shrunk(done.host, h) && FewerResources(done.meta, m) && Released(done.host, m, done.meta)
    && (done.ok ==> !HasResources(done.meta))
  }

  lemma DestroyShrinks(h: Host, s: string, inspect: bool, destroy: bool)
    ensures var out := Destroy(h, s, inspect, destroy);
            Shrunk(out.host, h) && (out.ok ==> s !in out.host.ifaces)
  {
  }

  lemma NetworkShrinks(h: Host, disk: Disk, name: string, config: NetConfig, c: CleanupCalls)
    ensures var out := CleanupNetwork(h, disk, name, config, c);
            && Shrunk(out.host, h)
            && (out.ok && config.ifaceOwned && config.iface != "" ==> config.iface !in out.host.ifaces)
  {
    DestroyShrinks(h, config.iface, c.inspectIface, c.destroyIface);
    var first := CleanupIface(h, config, c);
    assert Shrunk(first.host, h);
    DestroyShrinks(first.host, config.hostInterface, c.inspectHost, c.destroyHost);
    assert Shrunk(CleanupBridge(first.host, disk, name, config, c).host, first.host);
  }

  lemma PFShrinks(h: Host, m: Meta, c: CleanupCalls)
    ensures var out := CleanupPF(h, m, c);
            && Shrunk(out.host, h)
            && (out.ok && m.pfAnchor.Some? ==> m.pfAnchor.value !in out.host.anchors)
            && (out.ok && m.pfToken.Some? ==> m.pfToken.value !in out.host.tokens)
  {
  }

  lemma ShrunkTransitive(a: Host, b: Host, c: Host)
    requires Shrunk(b, a) && Shrunk(c, b)
    ensures Shrunk(c, a)
  {
  }

  /** The scan for other users of the bridge passes over the container's own record. */
  lemma OwnRecordIsPassedOver(h: Host, disk: Disk, name: string, m: Meta, config: NetConfig, c: CleanupCalls)
    ensures CleanupNetwork(h, disk[name := m], name, config, c) == CleanupNetwork(h, disk, name, config, c)
  {
    var disk' := disk[name := m];
    forall hostInterface
      ensures InUse(disk', name, hostInterface) == InUse(disk, name, hostInterface)
    {
      if InUse(disk, name, hostInterface) {
        var n :| n in disk && n != name && RefersTo(disk[n], hostInterface);
        assert n in disk' && disk'[n] == disk[n];
      }
    }
  }

  lemma CleanedFields(h: Host, disk: Disk, name: string, m: Meta, c: CleanupCalls)
    ensures var done, pf := Cleanup(h, disk, name, m, c), CleanupPF(h, m, c);
            && done.meta.pfAnchor == (if pf.ok then None else m.pfAnchor)
            && done.meta.pfToken == (if pf.ok then None else m.pfToken)
            && done.meta == m.(pfAnchor := done.meta.pfAnchor, pfToken := done.meta.pfToken, net := done.meta.net)
            && (m.net.None? ==> done.meta.net.None? && done.host == pf.host && done.ok == pf.ok)
            && (m.net.Some? ==>
                  var net := CleanupNetwork(pf.host, disk, name, m.net.value, c);
                  done.host == net.host && done.ok == (pf.ok && net.ok) && done.meta.net == if net.ok then None
                    else m.net)
  {
  }

  lemma CleanupReleases(h: Host, disk: Disk, name: string, m: Meta, c: CleanupCalls)
    ensures CleanedUp(h, m, Cleanup(h, disk, name, m, c))
  {
    var pf := CleanupPF(h, m, c);
    PFShrinks(h, m, c);
    CleanedFields(h, disk, name, m, c);
    if m.net.Some? {
      NetworkShrinks(pf.host, disk, name, m.net.value, c);
      ShrunkTransitive(h, pf.host, CleanupNetwork(pf.host, disk, name, m.net.value, c).host);
    }
  }

  /** Cleaning up without writing, then writing what is left, then removing a record that names nothing. */
  lemma CleaningIsTidy(w: World, name: string, m: Meta, done: Cleaned, b: Meta)
    requires name in w.disk && SameResources(m, w.disk[name])
    requires CleanedUp(w.host, m, done) && SameResources(b, done.meta)
    ensures var w1 := w.(host := done.host);
            Tidy(w, w1) && Tidy(w, WithMeta(w1, name, b))
            && (!HasResources(b) ==> Tidy(w, w1.(disk := w1.disk - {name})))
  {
    CleanedIsTidy(w, name, m, done);
    CleanedAndWrittenIsTidy(w, name, m, done, b);
    if !HasResources(b) { CleanedAndRemovedIsTidy(w, name, m, done); }
  }

  lemma CleanedAndRemovedIsTidy(w: World, name: string, m: Meta, done: Cleaned)
    requires name in w.disk && SameResources(m, w.disk[name]) && CleanedUp(w.host, m, done) && !HasResources(done.meta)
    ensures Tidy(w, w.(host := done.host, disk := w.disk - {name}))
  {
  }

  lemma CleanedIsTidy(w: World, name: string, m: Meta, done: Cleaned)
    requires name in w.disk && SameResources(m, w.disk[name]) && CleanedUp(w.host, m, done)
    ensures Tidy(w, w.(host := done.host))
  {
  }

  lemma CleanedAndWrittenIsTidy(w: World, name: string, m: Meta, done: Cleaned, b: Meta)
    requires name in w.disk && SameResources(m, w.disk[name])
    requires CleanedUp(w.host, m, done) && SameResources(b, done.meta)
    ensures Tidy(w, WithMeta(w.(host := done.host), name, b))
  {
  }

  lemma RewritingIsTidy(w: World, name: string, b: Meta)
    requires name in w.disk && SameResources(b, w.disk[name])
    ensures Tidy(w, WithMeta(w, name, b))
  {
  }

  /** Every record names exactly what it named, and the host is the same. */
  ghost predicate NamesTheSame(w: World, w': World) {
    && w'.host == w.host && w'.disk.Keys == w.disk.Keys
    && forall n :: n in w.disk ==> SameResources(w'.disk[n], w.disk[n])
  }

  lemma SameNamesAreTidy(w: World, w': World)
    requires NamesTheSame(w, w')
    ensures Tidy(w, w')
  {
  }

  lemma BegunNamesTheSame(w: World, name: string, c: Calls)
    ensures NamesTheSame(w, Begun(w, name, c).world)
  {
  }

  lemma PauseNamesTheSame(w: World, name: string, c: Calls)
    ensures NamesTheSame(w, Pause(w, name, c).world)
  {
    BegunNamesTheSame(w, name, c);
  }

  lemma UnpauseNamesTheSame(w: World, name: string, c: Calls)
    ensures NamesTheSame(w, Unpause(w, name, c).world)
  {
    BegunNamesTheSame(w, name, c);
  }

  lemma PauseIsTidy(w: World, name: string, c: Calls)
    ensures Tidy(w, Pause(w, name, c).world) && NamesTheSame(w, Pause(w, name, c).world)
  {
    PauseNamesTheSame(w, name, c);
    SameNamesAreTidy(w, Pause(w, name, c).world);
  }

  lemma UnpauseIsTidy(w: World, name: string, c: Calls)
    ensures Tidy(w, Unpause(w, name, c).world) && NamesTheSame(w, Unpause(w, name, c).world)
  {
    UnpauseNamesTheSame(w, name, c);
    SameNamesAreTidy(w, Unpause(w, name, c).world);
  }

  lemma StopDetachedIsTidy(w: World, name: string, m: Meta, p: Processes, c: Calls)
    requires name in w.disk && SameResources(m, w.disk[name])
    ensures var out := StopDetached(w, name, m, p, c);
            Tidy(w, out.world) && (out.ok && name in out.world.disk ==> !HasResources(out.world.disk[name]))
  {
    var done := Cleanup(w.host, w.disk, name, m, c.cleanup);
    CleanupReleases(w.host, w.disk, name, m, c.cleanup);
    CleaningIsTidy(w, name, m, Cleanup(w.host, w.disk, name, m, c.cleanup), StoppedMeta(Refreshed(done.meta, p)));
    var w2 := WithMeta(w.(host := done.host), name, StoppedMeta(Refreshed(done.meta, p)));
    if done.ok {
      RemovingIsTidy(w2, name, c.remove);
      TidyTransitive(w, w2, Remove(w2, name, c.remove).world);
    }
  }

  lemma CleanAndWriteIsTidy(w: World, name: string, m: Meta, c: Calls)
    requires name in w.disk && SameResources(m, w.disk[name])
    ensures var out := CleanAndWrite(w, name, m, c);
            Tidy(w, out.world) && (out.ok ==> name in out.world.disk && !HasResources(out.world.disk[name]))
  {
    var done := Cleanup(w.host, w.disk, name, m, c.cleanup);
    CleanupReleases(w.host, w.disk, name, m, c.cleanup);
    CleaningIsTidy(w, name, m, done, done.meta);
  }

  lemma StopAgainIsTidy(w: World, name: string, m: Meta, c: Calls)
    requires name in w.disk && SameResources(m, w.disk[name])
    ensures var out := StopAgain(w, name, m, c);
            Tidy(w, out.world) && (out.ok && name in out.world.disk ==> !HasResources(out.world.disk[name]))
  {
    var written := CleanAndWrite(w, name, m, c);
    CleanAndWriteIsTidy(w, name, m, c);
    if written.ok {
      RemovingIsTidy(written.world, name, c.remove);
      TidyTransitive(w, written.world, Remove(written.world, name, c.remove).world);
    }
  }

  lemma StopResumedIsTidy(w: World, name: string, m: Meta, c: Calls)
    requires name in w.disk && SameResources(m, w.disk[name])
    ensures var out := StopResumed(w, name, m, c);
            Tidy(w, out.world) && (out.ok && name in out.world.disk ==> !HasResources(out.world.disk[name]))
  {
    var p := ProcsOf(w, name);
    if !m.pid {
      StopAgainIsTidy(w, name, m, c);
    } else if c.alive && (p.launcher ==> c.terminate) {
      StopDetachedIsTidy(WithProcs(w, name, Terminated(p, c)), name, m, Terminated(p, c), c);
    }
  }

  lemma StopBegunIsTidy(w: World, name: string, m: Meta, c: Calls)
    requires name in w.disk && SameResources(m, w.disk[name])
    ensures var out := StopBegun(w, name, m, c);
            Tidy(w, out.world) && (out.ok && name in out.world.disk ==> !HasResources(out.world.disk[name]))
  {
    var sent := Resume(m, ProcsOf(w, name), c);
    if sent.ok && c.stopExec {
      var w1 := WithProcs(w, name, StopExecs(sent.procs, c.stopExec, c.execsKilled));
      assert Tidy(w, w1);
      StopResumedIsTidy(w1, name, m.(paused := false), c);
      TidyTransitive(w, w1, StopResumed(w1, name, m.(paused := false), c).world);
    }
  }

  lemma StopIsTidy(w: World, name: string, c: Calls)
    ensures var out := Stop(w, name, c);
            Tidy(w, out.world) && (out.ok && name in out.world.disk ==> !HasResources(out.world.disk[name]))
  {
    if name in w.disk && c.refresh {
      StopBegunIsTidy(w, name, Refreshed(w.disk[name], ProcsOf(w, name)), c);
    }
  }

  lemma RemovingIsTidy(w: World, name: string, ok: bool)
    requires name in w.disk ==> !HasResources(w.disk[name])
    ensures Tidy(w, Remove(w, name, ok).world)
  {
  }

  lemma RmDeadIsTidy(w: World, name: string, m: Meta, c: Calls)
    requires name in w.disk && SameResources(m, w.disk[name])
    ensures Tidy(w, RmDead(w, name, m, c).world)
  {
    CleanupReleases(w.host, w.disk, name, m, c.cleanup);
    CleaningIsTidy(w, name, m, Cleanup(w.host, w.disk, name, m, c.cleanup),
        Cleanup(w.host, w.disk, name, m, c.cleanup).meta);
  }

  lemma RmIsTidy(w: World, name: string, force: bool, c: Calls)
    ensures Tidy(w, Rm(w, name, force, c).world)
  {
    if name in w.disk && c.status {
      var m, p := w.disk[name], ProcsOf(w, name);
      if Live(StatusOf(m, p.launcher)) {
        if force {
          var stopped := Stop(w, name, c);
          StopIsTidy(w, name, c);
          if stopped.ok && !m.autoRemove {
            RemovingIsTidy(stopped.world, name, c.remove);
            TidyTransitive(w, stopped.world, Rm(w, name, force, c).world);
          }
        }
      } else if c.stopExec {
        RmDeadIsTidy(WithProcs(w, name, StopExecs(p, c.stopExec, c.execsKilled)), name, m, c);
      }
    }
  }

  lemma PsDeadIsTidy(w: World, name: string, m: Meta, changed: bool, c: Calls)
    requires name in w.disk && SameResources(m, w.disk[name])
    ensures Tidy(w, PsDead(w, name, m, changed, c).world)
  {
    var done := Cleanup(w.host, w.disk, name, m, c.cleanup);
    CleanupReleases(w.host, w.disk, name, m, c.cleanup);
    CleaningIsTidy(w, name, m, Cleanup(w.host, w.disk, name, m, c.cleanup), done.meta);
    var w1 := w.(host := done.host);
    var w2 := if changed || HasResources(m) then WithMeta(w1, name, done.meta) else w1;
    if HasResources(m) ==> done.ok {
      RemovingIsTidy(w2, name, c.remove);
      TidyTransitive(w, w2, Remove(w2, name, c.remove).world);
    }
  }

  lemma PsOneIsTidy(w: World, name: string, c: Calls)
    ensures Tidy(w, PsOne(w, name, c).world)
  {
    if name in w.disk && c.refresh && c.status {
      var p := ProcsOf(w, name);
      var m := Refreshed(w.disk[name], p);
      if Live(StatusOf(m, p.launcher)) {
        RewritingIsTidy(w, name, m);
      } else if c.stopExec {
        PsDeadIsTidy(WithProcs(w, name, StopExecs(p, c.stopExec, c.execsKilled)), name, m,
                     RefreshChanges(w.disk[name], p), c);
      }
    }
  }

  lemma {:induction false} PsIsTidy(w: World, names: seq<string>, each: string -> Calls)
    ensures Tidy(w, Ps(w, names, each).world)
    decreases |names|
  {
    if names != [] {
      var first := PsOne(w, names[0], each(names[0]));
      PsOneIsTidy(w, names[0], each(names[0]));
      if first.ok {
        PsIsTidy(first.world, names[1..], each);
        TidyTransitive(w, first.world, Ps(w, names, each).world);
      }
    }
  }

  lemma FinishRecordIsTidy(w: World, name: string, m: Meta, c: Calls)
    requires name in w.disk && SameResources(m, w.disk[name])
    ensures Tidy(w, FinishRecord(w, name, m, c).world)
  {
    var done := Cleanup(w.host, w.disk, name, m, c.cleanup);
    CleanupReleases(w.host, w.disk, name, m, c.cleanup);
    CleaningIsTidy(w, name, m, Cleanup(w.host, w.disk, name, m, c.cleanup), done.meta);
    var w2 := WithMeta(w.(host := done.host), name, done.meta);
    if done.ok {
      RemovingIsTidy(w2, name, c.remove);
      TidyTransitive(w, w2, Remove(w2, name, c.remove).world);
    }
  }

  lemma FinishIsTidy(w: World, name: string, exitKnown: bool, c: Calls)
    requires ForegroundPending(w)
    ensures Tidy(w, Finish(w, name, exitKnown, c).world)
  {
    if name in w.foreground {
      assert Pending(w, name);
      var ended := ProcsOf(w, name).(workload := Dead, record := exitKnown);
      FinishRecordIsTidy(WithProcs(w.(foreground := w.foreground - {name}), name, ended), name,
                         FinishedMeta(w.foreground[name], exitKnown), c);
    }
  }
}
