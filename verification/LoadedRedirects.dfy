/** The redirects of a container are loaded when its run succeeds, and stay so until a cleanup of that container takes
    them down. */
module LoadedRedirects {
  import opened Text
  import opened Network
  import opened Lifecycle
  import opened Ledger
  import opened LedgerRuns
  import opened Cleanings
  import opened Redirects
  import opened Outcomes

  /** The packet goes to the i-th published port: at the container's address in external mode, at any in host mode. */
  predicate GoesTo(p: Packet, r: Request, i: nat)
    requires i < |r.ports|
  {
    p.port == r.ports[i].hostPort && p.protocol == r.ports[i].protocol && (r.ExternalRequest? ==> p.ip == r.ip)
  }

  /** Under the anchor `a` the packet is led to the address `ip` and the port `nodePort`. */
  ghost predicate LedTo(h: Host, a: string, p: Packet, ip: string, nodePort: uint16) {
    && a in h.anchors
    && exists j :: 0 <= j < |h.anchors[a]| && Matches(h.anchors[a][j], p)
                   && h.anchors[a][j].target == ip && h.anchors[a][j].nodePort == nodePort
  }

  lemma RunInstalls(w: World, r: Request, c: RunCalls)
    requires Run(w, r, c).ok
    ensures var w' := Run(w, r, c).world;
            && r.name in w'.disk && w'.disk[r.name].net.Some?
            && w'.disk[r.name].pfAnchor == (if r.ports == [] then None else Some(AnchorFor(r.name)))
            && w'.disk[r.name].pfToken == (if r.ports == [] then None else Some(c.token))
            && w'.host.anchors == (if r.ports == [] then w.host.anchors
                                   else w.host.anchors[AnchorFor(r.name) := Rules(Destination(r),
                                                       w'.disk[r.name].net.value.ip, r.ports)])
            && w'.host.tokens == (if r.ports == [] then w.host.tokens else w.host.tokens + {c.token})
  {
    var setup := SetupFor(w, r, c);
    var h := Installed(w.host.(ifaces := setup.ifaces), r, setup.config.value, c);
    assert Run(w, r, c).world == Started(w, r, h, setup.config.value, c);
  }

  lemma RulesLead(h: Host, a: string, r: Request, ip: string, i: nat, p: Packet)
    requires a in h.anchors && h.anchors[a] == Rules(Destination(r), ip, r.ports) && i < |r.ports| && GoesTo(p, r, i)
    ensures LedTo(h, a, p, ip, r.ports[i].nodePort)
  {
    var rules := h.anchors[a];
    assert Matches(rules[i], p) && rules[i].nodePort == r.ports[i].nodePort;
  }

  /** A run that succeeds has loaded its redirects: a packet to a published port is led to the container's address on
      record and to the node port. The record names the anchor, which lies where macOS evaluates it, and the token that
      keeps PF enabled, which is held. */
  lemma RunLoadsRedirects(w: World, r: Request, c: RunCalls, i: nat, p: Packet)
    requires Run(w, r, c).ok && i < |r.ports| && GoesTo(p, r, i)
    ensures var w', a := Run(w, r, c).world, AnchorFor(r.name);
            && NamesAnchor(w'.disk, r.name, a) && w'.disk[r.name].net.Some?
            && LedTo(w'.host, a, p, w'.disk[r.name].net.value.ip, r.ports[i].nodePort)
            && "com.apple/" <= a && NamesToken(w'.disk, r.name, c.token) && c.token in w'.host.tokens
  {
    var w' := Run(w, r, c).world;
    RunInstalls(w, r, c);
    RulesLead(w'.host, AnchorFor(r.name), r, w'.disk[r.name].net.value.ip, i, p);
  }

  /** All other anchors and tokens are as they were, and without published ports all of them. */
  lemma RunLoadsNothingElse(w: World, r: Request, c: RunCalls)
    requires Run(w, r, c).ok
    ensures var h, h' := w.host, Run(w, r, c).world.host;
            && (r.ports == [] ==> h'.anchors == h.anchors && h'.tokens == h.tokens)
            && h'.anchors - {AnchorFor(r.name)} == h.anchors - {AnchorFor(r.name)}
            && h'.tokens - {c.token} == h.tokens - {c.token}
  {
    RunInstalls(w, r, c);
  }

  /** What a cleanup by some metadata takes away, and how to tell from the host whether it is still there. */
  ghost predicate TakenBy(held: Host -> bool, takes: (Meta, CleanupCalls) -> bool) {
    forall h, disk, name, m, k ::
      held(Cleanup(h, disk, name, m, k).host) <==> held(h) && !takes(m, k)
  }

  predicate CleaningTakes(cleaning: Cleaning, k: CleanupCalls, takes: (Meta, CleanupCalls) -> bool) {
    cleaning.reached && takes(cleaning.meta, k)
  }

  /** Somewhere in the loop of ps. */
  predicate PsTakes(w: World, names: seq<string>, each: string -> Calls, takes: (Meta, CleanupCalls) -> bool)
    decreases |names|
  {
    && names != []
    && var c := each(names[0]);
       var first := PsOne(w, names[0], c);
       || CleaningTakes(PsCleaning(w, names[0], c), c.cleanup, takes)
       || (first.ok && PsTakes(first.world, names[1..], each, takes))
  }

  /** The event comes to a cleanup that takes it. */
  predicate StepTakes(w: World, e: Event, takes: (Meta, CleanupCalls) -> bool) {
    match e
    case StopEvent(name, c) => CleaningTakes(StopCleaning(w, name, c), c.cleanup, takes)
    case RmEvent(name, force, c) => CleaningTakes(RmCleaning(w, name, force, c), c.cleanup, takes)
    case PsEvent(names, each) => PsTakes(w, names, each, takes)
    case FinishEvent(name, known, c) => CleaningTakes(FinishCleaning(w, name, known, c), c.cleanup, takes)
    case _ => false
  }

  lemma CleaningTakesExactly(w: World, w': World, name: string, cleaning: Cleaning, k: CleanupCalls,
                             held: Host -> bool, takes: (Meta, CleanupCalls) -> bool)
    requires CleansAs(w, w', name, cleaning, k) && TakenBy(held, takes)
    ensures held(w'.host) <==> held(w.host) && !CleaningTakes(cleaning, k, takes)
  {
    if cleaning.reached {
      assert held(Cleanup(w.host, w.disk, name, cleaning.meta, k).host) <==> held(w.host) && !takes(cleaning.meta, k);
    }
  }

  lemma {:induction false} PsTakesExactly(w: World, names: seq<string>, each: string -> Calls,
                                          held: Host -> bool, takes: (Meta, CleanupCalls) -> bool)
    requires TakenBy(held, takes)
    ensures held(Ps(w, names, each).world.host) <==> held(w.host) && !PsTakes(w, names, each, takes)
    decreases |names|
  {
    if names != [] {
      var c := each(names[0]);
      var first := PsOne(w, names[0], c);
      PsOneCleans(w, names[0], c);
      CleaningTakesExactly(w, first.world, names[0], PsCleaning(w, names[0], c), c.cleanup, held, takes);
      if first.ok {
        PsTakesExactly(first.world, names[1..], each, held, takes);
      }
    }
  }

  lemma ClearingTakesExactly(w: World, e: Event, held: Host -> bool, takes: (Meta, CleanupCalls) -> bool)
    requires Inv(w) && Clears(e) && TakenBy(held, takes)
    ensures held(Step(w, e).host) <==> held(w.host) && !StepTakes(w, e, takes)
  {
    match e
    case FinishEvent(name, known, c) =>
      FinishCleans(w, name, known, c);
      CleaningTakesExactly(w, Step(w, e), name, FinishCleaning(w, name, known, c), c.cleanup, held, takes);
    case PauseEvent(name, c) => PauseIsTidy(w, name, c);
    case UnpauseEvent(name, c) => UnpauseIsTidy(w, name, c);
    case StopEvent(name, c) =>
      StopCleans(w, name, c);
      CleaningTakesExactly(w, Step(w, e), name, StopCleaning(w, name, c), c.cleanup, held, takes);
    case RmEvent(name, force, c) =>
      RmCleans(w, name, force, c);
      CleaningTakesExactly(w, Step(w, e), name, RmCleaning(w, name, force, c), c.cleanup, held, takes);
    case PsEvent(names, each) => PsTakesExactly(w, names, each, held, takes);
  }

  /** A cleanup by this metadata flushes the anchor `a`. */
  function Flushing(a: string): (Meta, CleanupCalls) -> bool {
    (m: Meta, k: CleanupCalls) => m.pfAnchor == Some(a) && k.flush
  }

  /** A cleanup by this metadata releases the token `t`. */
  function Releasing(t: nat): (Meta, CleanupCalls) -> bool {
    (m: Meta, k: CleanupCalls) => m.pfToken == Some(t) && k.release
  }

  predicate Loaded(h: Host, a: string, rules: seq<Rule>) {
    a in h.anchors && h.anchors[a] == rules
  }

  lemma CleanupPFExactly(h: Host, disk: Disk, name: string, m: Meta, k: CleanupCalls)
    ensures var h' := Cleanup(h, disk, name, m, k).host;
            && h'.anchors == (if m.pfAnchor.Some? && k.flush then h.anchors - {m.pfAnchor.value} else h.anchors)
            && h'.tokens == (if m.pfToken.Some? && k.release then h.tokens - {m.pfToken.value} else h.tokens)
  {
    CleanedFields(h, disk, name, m, k);
  }

  lemma AnchorsAreFlushed(a: string, rules: seq<Rule>)
    ensures TakenBy((h: Host) => Loaded(h, a, rules), Flushing(a))
  {
    forall h, disk, name, m, k
      ensures Loaded(Cleanup(h, disk, name, m, k).host, a, rules) <==> Loaded(h, a, rules) && !Flushing(a)(m, k)
    {
      CleanupPFExactly(h, disk, name, m, k);
    }
  }

  lemma TokensAreReleased(t: nat)
    ensures TakenBy((h: Host) => t in h.tokens, Releasing(t))
  {
    forall h, disk, name, m, k
      ensures t in Cleanup(h, disk, name, m, k).host.tokens <==> t in h.tokens && !Releasing(t)(m, k)
    {
      CleanupPFExactly(h, disk, name, m, k);
    }
  }

  lemma RunKeepsLoaded(w: World, r: Request, c: RunCalls, a: string)
    requires Inv(w) && FreshToken(w, c.token) && a in w.host.anchors
    ensures Loaded(Run(w, r, c).world.host, a, w.host.anchors[a])
    ensures w.host.tokens <= Run(w, r, c).world.host.tokens
  {
    if Run(w, r, c).ok {
      NewAnchorIsNew(w, r);
      RunInstalls(w, r, c);
    } else {
      FailedRunLeavesNothing(w, r, c);
    }
  }

  /** An anchor that is loaded stays so, with the same rules, in any event but one: a cleanup by a record that names it
      and whose flush succeeds. */
  lemma AnchorStaysExactly(w: World, e: Event, a: string)
    requires Inv(w) && a in w.host.anchors
    ensures Loaded(Step(w, e).host, a, w.host.anchors[a]) <==> !StepTakes(w, e, Flushing(a))
    ensures a in Step(w, e).host.anchors <==> !StepTakes(w, e, Flushing(a))
  {
    if Clears(e) {
      AnchorsAreFlushed(a, w.host.anchors[a]);
      ClearingTakesExactly(w, e, (h: Host) => Loaded(h, a, w.host.anchors[a]), Flushing(a));
      ClearingIsTidy(w, e);
    } else if e.RunEvent? {
      if FreshToken(w, e.run.token) { RunKeepsLoaded(w, e.request, e.run, a); }
    } else {
      EnvironmentEffect(w, e);
    }
  }

  /** A token that is held stays so in any event but a cleanup by a record that names it and whose release succeeds. */
  lemma TokenStaysExactly(w: World, e: Event, t: nat)
    requires Inv(w) && t in w.host.tokens
    ensures t in Step(w, e).host.tokens <==> !StepTakes(w, e, Releasing(t))
  {
    if Clears(e) {
      TokensAreReleased(t);
      ClearingTakesExactly(w, e, (h: Host) => t in h.tokens, Releasing(t));
    } else if e.RunEvent? {
      if FreshToken(w, e.run.token) {
        if Run(w, e.request, e.run).ok { RunInstalls(w, e.request, e.run); }
        else { FailedRunLeavesNothing(w, e.request, e.run); }
      }
    } else {
      EnvironmentEffect(w, e);
    }
  }

  lemma {:induction false} LoadedAllAlong(w: World, events: seq<Event>, a: string)
    requires Inv(w) && a in w.host.anchors
    requires Throughout(w, events, (v: World, e: Event) => !StepTakes(v, e, Flushing(a)))
    ensures Inv(Execute(w, events)) && Loaded(Execute(w, events).host, a, w.host.anchors[a])
    decreases |events|
  {
    if events != [] {
      var before, e := events[..|events| - 1], events[|events| - 1];
      LoadedAllAlong(w, before, a);
      StepKeepsLedger(Execute(w, before), e);
      AnchorStaysExactly(Execute(w, before), e, a);
    }
  }

  lemma OnRecordWhileLoaded(w: World, n: string)
    requires Inv(w) && AnchorFor(n) in w.host.anchors
    ensures NamesAnchor(w.disk, n, AnchorFor(n))
  {
    var m :| NamesAnchor(w.disk, m, AnchorFor(n));
    AnchorsDiffer(n, m);
  }

  /** Over whole runs: from the run of a container on, whatever happens and whatever fails, a packet to its published
      port is led to the address and node port it was given, and the record names the anchor, as long as no cleanup by
      that record has flushed it. */
  lemma RedirectsStayLoaded(w: World, before: seq<Event>, r: Request, c: RunCalls, after: seq<Event>, i: nat, p: Packet)
    requires Initial(w) && i < |r.ports| && GoesTo(p, r, i)
    requires var v := Execute(w, before); FreshToken(v, c.token) && Run(v, r, c).ok
    requires Throughout(Run(Execute(w, before), r, c).world, after,
                        (v: World, e: Event) => !StepTakes(v, e, Flushing(AnchorFor(r.name))))
    ensures var started := Run(Execute(w, before), r, c).world;
            var v := Execute(started, after);
            && started.disk[r.name].net.Some?
            && LedTo(v.host, AnchorFor(r.name), p, started.disk[r.name].net.value.ip, r.ports[i].nodePort)
            && NamesAnchor(v.disk, r.name, AnchorFor(r.name))
  {
    var v := Execute(w, before);
    NothingLeaks(w, before);
    StepKeepsLedger(v, RunEvent(r, c));
    RunLoadsRedirects(v, r, c, i, p);
    LoadedAllAlong(Run(v, r, c).world, after, AnchorFor(r.name));
    OnRecordWhileLoaded(Execute(Run(v, r, c).world, after), r.name);
  }
}
