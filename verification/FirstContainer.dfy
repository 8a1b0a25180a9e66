/** The first container of an empty host, for the runs that show what can go wrong. */
module FirstContainer {
  import opened Text
  import opened Network
  import opened Lifecycle

  /** Every call succeeds. */
  const ALL_WELL := Calls(true, true, true, true, true, {}, true, {}, true, true, true, true, true, true, ALL_SUCCEED)

  const EMPTY_WORLD := World(map[], Host(map[], map[], {}), map[], map[])

  const RUN_SUCCEEDS := RunCalls(true, true, true, true, true, 0, true, true, true, true, 0, true, true, true)

  function FirstConfig(): NetConfig {
    NetConfig(HOST_BRIDGE, HOST_IP, SlotName(1), SlotIP(1), true, true)
  }

  function FirstIfaces(): Interfaces {
    map[HOST_BRIDGE := Interface({HOST_IP}, true)][SlotName(1) := Interface({SlotIP(1)}, true)]
  }

  lemma FirstSetup()
    ensures SetupNetwork(map[], map[], RUN_SUCCEEDS) == Setup(FirstIfaces(), Some(FirstConfig()))
    ensures SlotName(1) != HOST_BRIDGE && SlotName(1) != ""
  {
    SlotsAreDistinct(1, 1);
    assert |SlotName(1)| >= |HOST_BRIDGE|;
    var bridge := EnsureBridge(map[], map[], RUN_SUCCEEDS);
    assert SlotName(1) !in bridge.ifaces;
    assert ScanSlots(UsedInterfaces(map[]), bridge.ifaces.Keys, 1, 0) == Found(1);
  }

  const RUNNING := Processes(true, Running, [], false)

  function FirstRequest(name: string, autoRemove: bool): Request {
    HostRequest(name, [], autoRemove, true)
  }

  /** A detached container without published ports, alone. */
  function FirstWorld(name: string, autoRemove: bool, p: Processes): World {
    World(map[name := NewMeta(FirstRequest(name, autoRemove), FirstConfig(), RUN_SUCCEEDS)],
          Host(FirstIfaces(), map[], {}), map[name := p], map[])
  }

  lemma FirstRun(name: string, autoRemove: bool)
    ensures Run(EMPTY_WORLD, FirstRequest(name, autoRemove), RUN_SUCCEEDS).world
            == FirstWorld(name, autoRemove, RUNNING)
  {
    FirstSetup();
    assert !Conflict(map[], name, None, []);
  }

  const EXITED := Processes(false, Dead, [], true)

  function FirstRunEvent(name: string, autoRemove: bool): Event {
    RunEvent(FirstRequest(name, autoRemove), RUN_SUCCEEDS)
  }

  /** The container has run and its workload has ended; nothing has been cleaned up yet. */
  lemma FirstExit(name: string, autoRemove: bool)
    ensures Initial(EMPTY_WORLD)
    ensures Step(EMPTY_WORLD, FirstRunEvent(name, autoRemove)) == FirstWorld(name, autoRemove, RUNNING)
    ensures Step(FirstWorld(name, autoRemove, RUNNING), LauncherExits(name)) == FirstWorld(name, autoRemove, EXITED)
  {
    FirstRun(name, autoRemove);
  }

  lemma ThreeEvents(w: World, a: Event, b: Event, c: Event)
    ensures Execute(w, [a, b, c]) == Step(Step(Step(w, a), b), c)
  {
    assert [] + [a] == [a] && [a] + [b] == [a, b] && [a, b] + [c] == [a, b, c];
    OneMoreEvent(w, [], a);
    OneMoreEvent(w, [a], b);
    OneMoreEvent(w, [a, b], c);
  }

  lemma FourEvents(w: World, a: Event, b: Event, c: Event, d: Event)
    ensures Execute(w, [a, b, c, d]) == Step(Step(Step(Step(w, a), b), c), d)
  {
    ThreeEvents(w, a, b, c);
    assert [a, b, c] + [d] == [a, b, c, d];
    OneMoreEvent(w, [a, b, c], d);
  }

  lemma OneMoreEvent(w: World, events: seq<Event>, e: Event)
    ensures Execute(w, events + [e]) == Step(Execute(w, events), e)
  {
    assert (events + [e])[..|events|] == events;
  }

  lemma OnePs(w: World, name: string, each: string -> Calls)
    ensures Ps(w, [name], each).world == PsOne(w, name, each(name)).world
  {
    var first := PsOne(w, name, each(name));
    assert [name][1..] == [];
    assert Ps(first.world, [], each) == Out(first.world, true);
  }

  function PsOf(name: string, c: Calls): Event {
    PsEvent([name], (n: string) => c)
  }

  lemma PsOfOne(w: World, name: string, c: Calls)
    ensures Step(w, PsOf(name, c)) == PsOne(w, name, c).world
  {
    OnePs(w, name, (n: string) => c);
  }

  /** A ps that cleans everything up and cannot write so: both interfaces are gone, the record still names them. */
  lemma CleanedButUnwritten(name: string)
    ensures var w, w' := FirstWorld(name, false, EXITED),
             Step(FirstWorld(name, false, EXITED), PsOf(name, ALL_WELL.(write := false)));
            w'.disk == w.disk && w'.host == Host(map[], map[], {}) && ProcsOf(w', name) == EXITED
  {
    FirstSetup();
    var w := FirstWorld(name, false, EXITED);
    PsOfOne(w, name, ALL_WELL.(write := false));
    assert !InUse(w.disk, name, HOST_BRIDGE);
    assert FirstIfaces() - {SlotName(1)} - {HOST_BRIDGE} == map[];
  }
}
