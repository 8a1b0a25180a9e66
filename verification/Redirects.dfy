/** Which rule redirects a packet. */
module Redirects {
  import opened Text
  import opened Network
  import opened Lifecycle
  import opened Ledger
  import opened LedgerRuns

  datatype Packet = Packet(ip: string, port: uint16, protocol: string)

  predicate Matches(rule: Rule, p: Packet) {
    rule.protocol == p.protocol && rule.hostPort == p.port && (rule.destination.None? || rule.destination.value == p.ip)
  }

  /** Some packet matches both. */
  predicate Overlap(a: Rule, b: Rule) {
    && a.protocol == b.protocol && a.hostPort == b.hostPort
    && (a.destination.None? || b.destination.None? || a.destination == b.destination)
  }

  lemma OverlapMeaning(a: Rule, b: Rule)
    ensures Overlap(a, b) <==> exists p :: Matches(a, p) && Matches(b, p)
  {
    if Overlap(a, b) {
      var ip := if a.destination.Some? then a.destination.value else if b.destination.Some? then b.destination.value
          else "";
      var p := Packet(ip, a.hostPort, a.protocol);
      assert Matches(a, p) && Matches(b, p);
    }
  }

  type Anchors = map<string, seq<Rule>>

  /** No two loaded rules overlap. */
  ghost predicate Apart(anchors: Anchors) {
    forall a, b, i, j ::
      a in anchors && b in anchors && 0 <= i < |anchors[a]| && 0 <= j < |anchors[b]| && (a != b || i != j) ==>
        !Overlap(anchors[a][i], anchors[b][j])
  }

  /** The rules redirect the published host ports to their node ports, at the network's address, for any destination in
      host mode, and in external mode for one address, which is that of the network as long as there is one. */
  ghost predicate RulesFit(m: Meta, rules: seq<Rule>) {
    && |rules| == |m.ports|
    && (forall i :: 0 <= i < |rules| ==>
            rules[i].protocol == m.ports[i].protocol && rules[i].hostPort == m.ports[i].hostPort
                                         && rules[i].nodePort == m.ports[i].nodePort)
    && (m.net.Some? ==> forall i :: 0 <= i < |rules| ==> rules[i].target == m.net.value.ip)
    && (m.mode.HostMode? ==> forall i :: 0 <= i < |rules| ==> rules[i].destination.None?)
    && (m.mode.ExternalMode? && m.net.Some? ==> forall i :: 0 <= i < |rules| ==>
            rules[i].destination == Some(m.net.value.ip))
  }

  ghost predicate RulesKnown(disk: Disk, anchors: Anchors) {
    forall n :: NamesAnchor(disk, n, AnchorFor(n)) && AnchorFor(n) in anchors ==>
      RulesFit(disk[n], anchors[AnchorFor(n)])
  }

  ghost predicate PFInv(w: World) {
    Apart(w.host.anchors) && RulesKnown(w.disk, w.host.anchors)
  }

  lemma AnchorsDiffer(n: string, m: string)
    requires AnchorFor(n) == AnchorFor(m)
    ensures n == m
  {
    var prefix := AnchorFor([]);
    assert AnchorFor(n) == prefix + n && AnchorFor(m) == prefix + m;
    assert n == (prefix + n)[|prefix|..] == (prefix + m)[|prefix|..] == m;
  }

  lemma TidyKeepsRules(w: World, w': World)
    requires PFInv(w) && Tidy(w, w')
    ensures PFInv(w')
  {
    forall n | NamesAnchor(w'.disk, n, AnchorFor(n)) && AnchorFor(n) in w'.host.anchors
      ensures RulesFit(w'.disk[n], w'.host.anchors[AnchorFor(n)])
    {
      assert FewerResources(w'.disk[n], w.disk[n]);
      assert NamesAnchor(w.disk, n, AnchorFor(n));
    }
  }

  /** Fewer anchors, the same metadata. */
  lemma FewerAnchorsKeep(w: World, h: Host)
    requires PFInv(w) && forall a :: a in h.anchors ==> a in w.host.anchors && h.anchors[a] == w.host.anchors[a]
    ensures PFInv(w.(host := h))
  {
  }

  /** The conflict check keeps a request's rules apart from every rule that is loaded. */
  lemma AcceptedRulesAreApart(w: World, r: Request, target: string, a: string, i: nat, j: nat)
    requires Inv(w) && PFInv(w) && Acceptable(w, r)
    requires a in w.host.anchors && i < |w.host.anchors[a]| && j < |r.ports|
    ensures !Overlap(w.host.anchors[a][i], Rules(Destination(r), target, r.ports)[j])
  {
    var n :| NamesAnchor(w.disk, n, a);
    assert RulesFit(w.disk[n], w.host.anchors[a]);
    assert SharesPort(r.ports, w.disk[n].ports) ==> Elsewhere(w.disk[n], Destination(r));
  }

  lemma NewAnchorIsNew(w: World, r: Request)
    requires Inv(w) && r.name !in w.disk
    ensures AnchorFor(r.name) !in w.host.anchors
  {
    if AnchorFor(r.name) in w.host.anchors {
      var n :| NamesAnchor(w.disk, n, AnchorFor(r.name));
      AnchorsDiffer(n, r.name);
    }
  }

  lemma InstalledIsApart(w: World, r: Request, ifaces: Interfaces, config: NetConfig, c: RunCalls)
    requires Inv(w) && PFInv(w) && Acceptable(w, r)
    ensures Apart(Installed(w.host.(ifaces := ifaces), r, config, c).anchors)
  {
    NewAnchorIsNew(w, r);
    var rules := Rules(Destination(r), config.ip, r.ports);
    forall a, i, j | a in w.host.anchors && 0 <= i < |w.host.anchors[a]| && 0 <= j < |rules|
      ensures !Overlap(w.host.anchors[a][i], rules[j])
    {
      AcceptedRulesAreApart(w, r, config.ip, a, i, j);
    }
  }

  lemma NewRulesFit(r: Request, config: NetConfig, c: RunCalls)
    requires r.ExternalRequest? ==> config.ip == r.ip
    ensures RulesFit(NewMeta(r, config, c), Rules(Destination(r), config.ip, r.ports))
  {
  }

  lemma KnownWithNew(disk: Disk, anchors: Anchors, name: string, m: Meta, rules: seq<Rule>)
    requires RulesKnown(disk, anchors) && RulesFit(m, rules)
    ensures RulesKnown(disk[name := m], anchors[AnchorFor(name) := rules])
  {
    var disk', anchors' := disk[name := m], anchors[AnchorFor(name) := rules];
    forall n | NamesAnchor(disk', n, AnchorFor(n)) && AnchorFor(n) in anchors'
      ensures RulesFit(disk'[n], anchors'[AnchorFor(n)])
    {
      if n != name {
        assert NamesAnchor(disk, n, AnchorFor(n));
        if AnchorFor(n) == AnchorFor(name) { AnchorsDiffer(n, name); }
      }
    }
  }

  lemma KnownWithout(disk: Disk, anchors: Anchors, name: string, m: Meta)
    requires RulesKnown(disk, anchors) && m.pfAnchor.None?
    ensures RulesKnown(disk[name := m], anchors)
  {
    assert forall n :: NamesAnchor(disk[name := m], n, AnchorFor(n)) ==>
      NamesAnchor(disk, n, AnchorFor(n)) && n != name;
  }

  lemma StartedKeepsRules(w: World, r: Request, ifaces: Interfaces, config: NetConfig, c: RunCalls)
    requires Inv(w) && PFInv(w) && Acceptable(w, r) && (r.ExternalRequest? ==> config.ip == r.ip)
    ensures PFInv(Started(w, r, Installed(w.host.(ifaces := ifaces), r, config, c), config, c))
  {
    InstalledIsApart(w, r, ifaces, config, c);
    NewRulesFit(r, config, c);
    if r.ports == [] {
      KnownWithout(w.disk, w.host.anchors, r.name, NewMeta(r, config, c));
    } else {
      KnownWithNew(w.disk, w.host.anchors, r.name, NewMeta(r, config, c), Rules(Destination(r), config.ip, r.ports));
    }
  }

  lemma UndoneAnchors(w: World, r: Request, h: Host, config: NetConfig)
    ensures CleanupNetwork(h, w.disk, r.name, config, ALL_SUCCEED).host.anchors == h.anchors
  {
  }

  lemma RunKeepsRules(w: World, r: Request, c: RunCalls)
    requires Inv(w) && PFInv(w)
    ensures PFInv(Run(w, r, c).world)
  {
    var setup := SetupFor(w, r, c);
    if Acceptable(w, r) && setup.config.Some? {
      var config, h := setup.config.value, w.host.(ifaces := setup.ifaces);
      var m, h1 := NewMeta(r, config, c), Installed(h, r, config, c);
      NewAnchorIsNew(w, r);
      if !c.prepare || (r.ports != [] && !c.install) {
        UndoneAnchors(w, r, h, config);
        FewerAnchorsKeep(w, Undo(h, w.disk, r, config, None));
      } else if !c.launch || !c.record {
        UndoneAnchors(w, r, CleanupPF(h1, m, ALL_SUCCEED).host, config);
        FewerAnchorsKeep(w, Undo(h1, w.disk, r, config, Some(m)));
      } else {
        StartedKeepsRules(w, r, setup.ifaces, config, c);
      }
    }
  }

  lemma StepKeepsRules(w: World, e: Event)
    requires Inv(w) && PFInv(w)
    ensures PFInv(Step(w, e))
  {
    if Clears(e) {
      ClearingIsTidy(w, e);
      TidyKeepsRules(w, Step(w, e));
    } else if e.RunEvent? {
      RunKeepsRules(w, e.request, e.run);
    } else {
      OthersKeepRules(w, e);
    }
  }

  lemma OthersKeepRules(w: World, e: Event)
    requires PFInv(w) && EnvironmentStep(e)
    ensures PFInv(Step(w, e))
  {
    EnvironmentEffect(w, e);
  }

  lemma {:induction false} RulesAlways(w: World, events: seq<Event>)
    requires Initial(w)
    ensures PFInv(Execute(w, events))
    decreases |events|
  {
    if events != [] {
      var before := events[..|events| - 1];
      RulesAlways(w, before);
      NothingLeaks(w, before);
      StepKeepsRules(Execute(w, before), events[|events| - 1]);
    }
  }

  /** In every run, whatever fails, a packet matches at most one of all rules of all containers, those of half-cleaned
      containers included; and the rule belongs to a container that metadata on disk names. */
  lemma RedirectIsUnambiguous(w: World, events: seq<Event>, p: Packet, a: string, i: nat, b: string, j: nat)
    requires Initial(w)
    requires var anchors := Execute(w, events).host.anchors;
             && a in anchors && i < |anchors[a]| && Matches(anchors[a][i], p)
             && b in anchors && j < |anchors[b]| && Matches(anchors[b][j], p)
    ensures a == b && i == j && exists n :: NamesAnchor(Execute(w, events).disk, n, a)
  {
    RulesAlways(w, events);
    NothingLeaks(w, events);
    var anchors := Execute(w, events).host.anchors;
    OverlapMeaning(anchors[a][i], anchors[b][j]);
  }

  /** The rules that are loaded are those of the metadata: each matches the host port of one published mapping, leads to
      its node port, and in external mode takes only packets to the container's own address. */
  lemma LoadedRulesAreTheContainers(w: World, events: seq<Event>, n: string, i: nat, p: Packet)
    requires Initial(w)
    requires var v := Execute(w, events);
             NamesAnchor(v.disk, n, AnchorFor(n)) && AnchorFor(n) in v.host.anchors
               && i < |v.host.anchors[AnchorFor(n)]|
             && Matches(v.host.anchors[AnchorFor(n)][i], p)
    ensures var v := Execute(w, events);
            var m := v.disk[n];
            && i < |m.ports| && m.ports[i].hostPort == p.port && m.ports[i].protocol == p.protocol
            && v.host.anchors[AnchorFor(n)][i].nodePort == m.ports[i].nodePort
            && (m.net.Some? ==> v.host.anchors[AnchorFor(n)][i].target == m.net.value.ip)
            && (m.mode.ExternalMode? && m.net.Some? ==> p.ip == m.net.value.ip)
  {
    RulesAlways(w, events);
  }
}
