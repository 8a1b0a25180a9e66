/** The directory-mode phase that ends a layer: modes recorded while replaying are applied deepest first. */
module Modes {
  import opened Paths
  import opened FileTree
  import opened Layers

  function WithMode(node: Node, mode: nat): Node {
    match node
    case Dir(_) => Dir(mode)
    case File(content, _) => File(content, mode)
    case _ => node
  }

  /** Every recorded path that still exists, with its recorded mode. */
  function Settle(t: Tree, modes: map<Path, nat>): Tree {
    map p | p in t :: if p in modes then WithMode(t[p], modes[p]) else t[p]
  }

  predicate SearchableAbove(t: Tree, p: Path) {
    forall k | 0 <= k < |p| && IsDir(t, p[..k]) :: Searchable(t[p[..k]].mode)
  }

  /** The kernel is led through a symlink on its way to `p`, or by one at `p` itself. */
  predicate Through(t: Tree, p: Path) {
    Crosses(t, p) || (p in t && t[p].Symlink?)
  }

  /** Something that is neither a directory nor a symlink stands in the way to `p`. */
  predicate Obstructed(t: Tree, p: Path) {
    Blocked(t, p) && !Through(t, p)
  }

  /** Nothing but modes differs. */
  ghost predicate OnlyModes(t: Tree, u: Tree) {
    u.Keys == t.Keys && forall p :: p in t ==> WithMode(u[p], 0) == WithMode(t[p], 0)
  }

  /** What a chmod does that is led through a symlink: it may fail, it may change a mode elsewhere in the tree, and what
      it does outside the root is not for the tree to say. */
  type Follow = f: (Tree, Path, nat) -> Outcome | forall t, p, mode :: OnlyModes(t, f(t, p, mode).tree)
    witness (t: Tree, p: Path, mode: nat) => Outcome(t, Done)

  /** `os.Chmod(p)` as a process without special rights makes it, symlinks followed. A missing path is not an error
      here. */
  function Chmod(t: Tree, p: Path, mode: nat, follow: Follow): Outcome {
    if !SearchableAbove(t, p) then Outcome(t, Failed(Denied))
    else if Through(t, p) then follow(t, p, mode)
    else if Blocked(t, p) then Outcome(t, Failed(NotDirectory))
    else if p !in t then Outcome(t, Done)
    else Outcome(t[p := WithMode(t[p], mode)], Done)
  }

  predicate Escapes(t: Tree, p: Path) {
    SearchableAbove(t, p) && Through(t, p)
  }

  /** The mode phase so far: the tree, the paths whose chmod was led through a symlink, and whether all calls went
      well. */
  datatype Phase = Phase(tree: Tree, escapes: seq<Path>, status: Status)

  ghost function ChmodAll(t: Tree, modes: map<Path, nat>, order: seq<Path>, follow: Follow): Phase
    requires forall p | p in order :: p in modes
    decreases |order|
  {
    if order == [] then Phase(t, [], Done)
    else
      var p := order[|order| - 1];
      ChmodNext(ChmodAll(t, modes, order[..|order| - 1], follow), p, modes[p], follow)
  }

  /** The first error ends the phase. */
  function ChmodNext(before: Phase, p: Path, mode: nat, follow: Follow): Phase {
    if before.status.Failed? then before
    else
      var out := Chmod(before.tree, p, mode, follow);
      Phase(out.tree, if Escapes(before.tree, p) then before.escapes + [p] else before.escapes, out.status)
  }

  /** Different paths, deepest first. */
  ghost predicate Descending(order: seq<Path>) {
    forall i, j | 0 <= i < j < |order| :: order[i] != order[j] && |order[j]| <= |order[i]|
  }

  /** One way the recorded paths may be visited: any map order, any order among equal depths. */
  ghost predicate DeepestFirst(modes: map<Path, nat>, order: seq<Path>) {
    (forall p :: p in modes <==> p in order) && Descending(order)
  }

  /** No recorded path was later replaced, at or above it, by something chmod would follow or trip on. */
  ghost predicate Benign(t: Tree, modes: map<Path, nat>) {
    forall p | p in modes :: Plainly(t, p)
  }

  ghost predicate Plainly(t: Tree, p: Path) {
    !Through(t, p) && !Blocked(t, p)
  }

  ghost function SettledBy(t: Tree, modes: map<Path, nat>, order: seq<Path>): Tree
    requires forall p | p in order :: p in modes
  {
    map p | p in t :: if p in order then WithMode(t[p], modes[p]) else t[p]
  }

  /** Before the path at `p` is visited only deeper or equal ones have been, so all above it is as it was. */
  lemma ChmodAfterDeeper(t: Tree, modes: map<Path, nat>, order: seq<Path>, p: Path, follow: Follow)
    requires p in modes && AllSearchable(t)
    requires forall q | q in order :: q in modes && |p| <= |q| && p != q
    ensures var u := SettledBy(t, modes, order);
            && (Escapes(u, p) <==> Through(t, p))
            && (Plainly(t, p) ==>
                  Chmod(u, p, modes[p], follow) == Outcome(if p in t then u[p := WithMode(t[p], modes[p])]
                      else u, Done))
            && (Obstructed(t, p) ==> Chmod(u, p, modes[p], follow).status.Failed?)
  {
    var u := SettledBy(t, modes, order);
    forall k | 0 <= k < |p|
      ensures p[..k] in u <==> p[..k] in t
      ensures p[..k] in t ==> u[p[..k]] == t[p[..k]]
    {
      assert p[..k] !in order;
    }
  }

  lemma SettledByOneMore(t: Tree, modes: map<Path, nat>, front: seq<Path>, p: Path)
    requires p in modes && p !in front && forall q | q in front :: q in modes
    ensures var u := SettledBy(t, modes, front);
            SettledBy(t, modes, front + [p]) == if p in t then u[p := WithMode(t[p], modes[p])] else u
  {
  }

  /** A path is reached by which the phase is led through a symlink: nothing visited before it is obstructed. */
  ghost predicate LeadsOut(t: Tree, order: seq<Path>) {
    exists i :: 0 <= i < |order| && Through(t, order[i]) && forall j :: 0 <= j < i ==> !Obstructed(t, order[j])
  }

  ghost predicate SomeObstructed(t: Tree, paths: seq<Path>) {
    exists p :: p in paths && Obstructed(t, p)
  }

  /** What the phase comes to: it is led out exactly when the first trouble it meets is a symlink, and, if it is not,
      fails exactly when some path is obstructed. */
  ghost predicate PhaseExactly(t: Tree, order: seq<Path>, phase: Phase, settled: Tree) {
    && (phase.escapes != [] <==> LeadsOut(t, order))
    && (phase.escapes == [] ==> (phase.status.Failed? <==> SomeObstructed(t, order)))
    && (phase.escapes == [] && phase.status.Done? ==> phase.tree == settled)
  }

  lemma LeadsOutByOneMore(t: Tree, front: seq<Path>, p: Path)
    ensures LeadsOut(t, front + [p]) <==> LeadsOut(t, front) || (Through(t, p) && !SomeObstructed(t, front))
    ensures SomeObstructed(t, front + [p]) <==> SomeObstructed(t, front) || Obstructed(t, p)
  {
    var order := front + [p];
    assert forall j :: 0 <= j < |front| ==> order[j] == front[j];
    if LeadsOut(t, front) {
      var i :| 0 <= i < |front| && Through(t, front[i]) && forall j :: 0 <= j < i ==> !Obstructed(t, front[j]);
      assert Through(t, order[i]);
    }
    if Through(t, p) && !SomeObstructed(t, front) {
      assert order[|front|] == p;
      forall j | 0 <= j < |front|
        ensures !Obstructed(t, order[j])
      {
        assert front[j] in front;
      }
    }
    assert order[|front|] == p && p in order && forall q :: q in front ==> q in order;
  }

  lemma {:induction false} ChmodAllExactly(t: Tree, modes: map<Path, nat>, order: seq<Path>, follow: Follow)
    requires AllSearchable(t) && (forall p | p in order :: p in modes) && Descending(order)
    ensures PhaseExactly(t, order, ChmodAll(t, modes, order, follow), SettledBy(t, modes, order))
    decreases |order|
  {
    if order == [] {
      assert SettledBy(t, modes, order) == t;
    } else {
      var front, p := order[..|order| - 1], order[|order| - 1];
      assert order == front + [p];
      ChmodAllExactly(t, modes, front, follow);
      NextExactly(t, modes, front, p, follow, ChmodAll(t, modes, front, follow));
    }
  }

  lemma NextExactly(t: Tree, modes: map<Path, nat>, front: seq<Path>, p: Path, follow: Follow, before: Phase)
    requires AllSearchable(t) && p in modes && forall q | q in front :: q in modes && |p| <= |q| && p != q
    requires PhaseExactly(t, front, before, SettledBy(t, modes, front))
    ensures PhaseExactly(t, front + [p], ChmodNext(before, p, modes[p], follow), SettledBy(t, modes, front + [p]))
  {
    LeadsOutByOneMore(t, front, p);
    ChmodAfterDeeper(t, modes, front, p, follow);
    SettledByOneMore(t, modes, front, p);
  }

  /** From searchable directories, for every visiting order and whatever chmods through symlinks do: the phase is led
      out exactly when the first trouble it meets is a symlink; otherwise it fails exactly when some recorded path is
      obstructed; and it does neither exactly when no recorded path has been so replaced, and then every order leaves
      the same tree, each recorded path with its last recorded mode. */
  lemma DeferredModes(t: Tree, modes: map<Path, nat>, order: seq<Path>, follow: Follow)
    requires AllSearchable(t) && DeepestFirst(modes, order)
    ensures PhaseExactly(t, order, ChmodAll(t, modes, order, follow), Settle(t, modes))
    ensures var phase := ChmodAll(t, modes, order, follow);
            phase.escapes == [] && phase.status.Done? <==> Benign(t, modes)
  {
    ChmodAllExactly(t, modes, order, follow);
    assert SettledBy(t, modes, order) == Settle(t, modes);
    BenignOrNot(t, modes, order);
  }

  lemma BenignOrNot(t: Tree, modes: map<Path, nat>, order: seq<Path>)
    requires DeepestFirst(modes, order)
    ensures Benign(t, modes) <==> !LeadsOut(t, order) && !SomeObstructed(t, order)
  {
    if Benign(t, modes) {
      forall i | 0 <= i < |order|
        ensures !Through(t, order[i])
      {
        assert order[i] in modes;
      }
    } else {
      var p :| p in modes && !Plainly(t, p);
      var i :| 0 <= i < |order| && order[i] == p;
      if !SomeObstructed(t, order) {
        forall j | 0 <= j < i
          ensures !Obstructed(t, order[j])
        {
          assert order[j] in order;
        }
      }
    }
  }

  /** Whatever happens, the phase changes modes and nothing else. */
  lemma {:induction false} ChmodAllOnlyModes(t: Tree, modes: map<Path, nat>, order: seq<Path>, follow: Follow)
    requires forall p | p in order :: p in modes
    ensures OnlyModes(t, ChmodAll(t, modes, order, follow).tree)
    decreases |order|
  {
    if order != [] {
      var p := order[|order| - 1];
      var before := ChmodAll(t, modes, order[..|order| - 1], follow);
      ChmodAllOnlyModes(t, modes, order[..|order| - 1], follow);
      if before.status.Done? {
        OnlyModesOnce(before.tree, p, modes[p], follow);
      }
    }
  }

  lemma OnlyModesOnce(t: Tree, p: Path, mode: nat, follow: Follow)
    ensures OnlyModes(t, Chmod(t, p, mode, follow).tree)
  {
  }

  /** Visiting a parent first can lock its children out: the depth order is needed. */
  lemma ShallowFirstCanFail(follow: Follow)
    ensures exists t: Tree, modes: map<Path, nat>, order ::
              && AllSearchable(t) && Benign(t, modes)
              && (forall p :: p in modes <==> p in order)
              && ChmodAll(t, modes, order, follow).status == Failed(Denied)
  {
    var a: Path, b: Path := ["a"], ["a", "b"];
    var t: Tree := map[[] := Dir(0x1ED), a := Dir(0x1ED), b := Dir(0x1ED)];
    var modes: map<Path, nat> := map[a := 0, b := 0];
    var order := [a, b];
    assert order[..1] == [a] && order[..1][..0] == [];
    assert b[..0] == [] && b[..1] == a && a[..0] == [];
    var t1 := t[a := Dir(0)];
    assert ChmodAll(t, modes, [], follow) == Phase(t, [], Done);
    assert Chmod(t, a, 0, follow) == Outcome(t1, Done);
    assert ChmodAll(t, modes, [a], follow) == Phase(t1, [], Done);
    assert IsDir(t1, b[..1]) && !Searchable(t1[b[..1]].mode);
    assert Chmod(t1, b, 0, follow) == Outcome(t1, Failed(Denied));
    assert ChmodAll(t, modes, order, follow).status == Failed(Denied);
    assert Benign(t, modes) by {
      forall p | p in modes
        ensures Plainly(t, p)
      {
        assert forall k | 0 <= k < |p| :: p[..k] == [] || p[..k] == a;
      }
    }
  }

  const EMPTY_ROOT: Tree := map[[] := Dir(DEFAULT_DIR_MODE)]

  /** A directory named and then replaced by something else. */
  function Replaced(n: Name, kind: Kind): seq<Entry> {
    [Entry(n + "/", DirectoryKind, 0x1C0), Entry(n, kind, 0x180)]
  }

  lemma ReplacedEvents(n: Name, kind: Kind)
    requires PlainName(n) && !WhiteoutName(n) && (kind.SymlinkKind? || kind.RegularKind?)
    ensures Decode(Replaced(n, kind)[0]) == AddDirectory([n], 0x1C0)
    ensures Decode(Replaced(n, kind)[1])
            == AddLeaf([n], if kind.SymlinkKind? then Symlink(kind.link) else File(kind.content, 0x180))
  {
    CleanOfOne(n);
  }

  lemma ReplacedByLeaf(a: Entry, b: Entry, p: Path, node: Node)
    requires |p| == 1 && Decode(a) == AddDirectory(p, 0x1C0) && Decode(b) == AddLeaf(p, node)
    ensures Replay(State(EMPTY_ROOT, map[], Done), [a, b]) == State(EMPTY_ROOT[p := node], map[p := 0x1C0], Done)
  {
    var s0 := State(EMPTY_ROOT, map[], Done);
    TwoSteps(s0, a, b);
    TopDirectory(p);
    TopLeaf(p, node);
    var s1 := Step(s0, a);
    assert s1 == State(EMPTY_ROOT[p := Dir(DEFAULT_DIR_MODE)], map[p := 0x1C0], Done);
  }

  lemma RootIsClear(t: Tree)
    ensures CheckAll(t, [[]]).Done?
  {
    var guards: seq<Path> := [[]];
    assert guards[1..] == [];
  }

  lemma TopDirectory(p: Path)
    requires |p| == 1
    ensures Effect(EMPTY_ROOT, AddDirectory(p, 0x1C0)) == Outcome(EMPTY_ROOT[p := Dir(DEFAULT_DIR_MODE)], Done)
  {
    assert Guards(AddDirectory(p, 0x1C0)) == [[]];
    RootIsClear(EMPTY_ROOT);
    NewDirectory(EMPTY_ROOT, p);
  }

  lemma TopLeaf(p: Path, node: Node)
    requires |p| == 1
    ensures Effect(EMPTY_ROOT[p := Dir(DEFAULT_DIR_MODE)], AddLeaf(p, node)) == Outcome(EMPTY_ROOT[p := node], Done)
  {
    var t := EMPTY_ROOT[p := Dir(DEFAULT_DIR_MODE)];
    assert Guards(AddLeaf(p, node)) == [[]];
    RootIsClear(t);
    assert Without(t, p) == EMPTY_ROOT;
  }

  lemma FirstTwoDiffer(order: seq<Path>)
    requires Descending(order) && |order| > 1
    ensures order[0] != order[1]
  {
  }

  lemma OneRecorded(t: Tree, p: Path, mode: nat, follow: Follow, order: seq<Path>)
    requires DeepestFirst(map[p := mode], order)
    ensures order == [p]
    ensures var out := Chmod(t, p, mode, follow);
            ChmodAll(t, map[p := mode], order, follow) == Phase(out.tree, if Escapes(t, p) then [p] else [], out.status)
  {
    assert p in order;
    forall i | 0 <= i < |order|
      ensures order[i] == p
    {
      assert order[i] in order;
    }
    if |order| > 1 { FirstTwoDiffer(order); }
    assert order[..0] == [];
    assert ChmodAll(t, map[p := mode], [], follow) == Phase(t, [], Done);
  }

  /** A directory replaced by a symlink: the stream goes through and the directory's mode is set through the symlink, on
      whatever it points to, inside the root or out; the phase ends as that call does, well if it does. */
  lemma ReplacedDirectoryLeadsOut(n: Name, target: string, order: seq<Path>, follow: Follow)
    requires PlainName(n) && !WhiteoutName(n)
    requires DeepestFirst(Replay(State(EMPTY_ROOT, map[], Done), Replaced(n, SymlinkKind(target))).modes, order)
    ensures var r := Replay(State(EMPTY_ROOT, map[], Done), Replaced(n, SymlinkKind(target)));
            var out := follow(r.tree, [n], 0x1C0);
            r.status.Done? && ChmodAll(r.tree, r.modes, order, follow) == Phase(out.tree, [[n]], out.status)
  {
    ReplacedEvents(n, SymlinkKind(target));
    var es := Replaced(n, SymlinkKind(target));
    ReplacedByLeaf(es[0], es[1], [n], Symlink(target));
    assert es == [es[0], es[1]];
    ChmodTopLink([n], target, order, follow);
  }

  lemma ChmodTopLink(p: Path, target: string, order: seq<Path>, follow: Follow)
    requires |p| == 1 && DeepestFirst(map[p := 0x1C0], order)
    ensures var t := EMPTY_ROOT[p := Symlink(target)];
            var out := follow(t, p, 0x1C0);
            ChmodAll(t, map[p := 0x1C0], order, follow) == Phase(out.tree, [p], out.status)
  {
    OneRecorded(EMPTY_ROOT[p := Symlink(target)], p, 0x1C0, follow, order);
    assert forall k | 0 <= k < |p| :: p[..k] == [];
  }

  /** A directory replaced by a regular file: nothing is led out and nothing fails, but the file gets the directory's
      mode. */
  lemma FileTakesDirectoryMode(n: Name, content: string, order: seq<Path>, follow: Follow)
    requires PlainName(n) && !WhiteoutName(n)
    requires DeepestFirst(Replay(State(EMPTY_ROOT, map[], Done), Replaced(n, RegularKind(content))).modes, order)
    ensures var r := Replay(State(EMPTY_ROOT, map[], Done), Replaced(n, RegularKind(content)));
            && r.status.Done? && r.tree == EMPTY_ROOT[[n] := File(content, 0x180)]
            && ChmodAll(r.tree, r.modes, order, follow) == Phase(EMPTY_ROOT[[n] := File(content, 0x1C0)], [], Done)
  {
    ReplacedEvents(n, RegularKind(content));
    var es := Replaced(n, RegularKind(content));
    ReplacedByLeaf(es[0], es[1], [n], File(content, 0x180));
    assert es == [es[0], es[1]];
    ChmodTopFile([n], content, order, follow);
  }

  lemma ChmodTopFile(p: Path, content: string, order: seq<Path>, follow: Follow)
    requires |p| == 1 && DeepestFirst(map[p := 0x1C0], order)
    ensures ChmodAll(EMPTY_ROOT[p := File(content, 0x180)], map[p := 0x1C0], order, follow)
            == Phase(EMPTY_ROOT[p := File(content, 0x1C0)], [], Done)
  {
    var t := EMPTY_ROOT[p := File(content, 0x180)];
    OneRecorded(t, p, 0x1C0, follow, order);
    TopIsPlain(t, p);
    assert WithMode(t[p], 0x1C0) == File(content, 0x1C0);
    assert t[p := File(content, 0x1C0)] == EMPTY_ROOT[p := File(content, 0x1C0)];
  }

  lemma TopIsPlain(t: Tree, p: Path)
    requires |p| == 1 && [] in t && t[[]] == Dir(DEFAULT_DIR_MODE) && p in t && !t[p].Symlink?
    ensures Plainly(t, p) && SearchableAbove(t, p)
  {
    assert forall k | 0 <= k < |p| :: p[..k] == [];
  }

  lemma {:induction false} ReplayKeepsSearchable(s: State, es: seq<Entry>)
    requires AllSearchable(s.tree)
    ensures AllSearchable(Replay(s, es).tree)
    decreases |es|
  {
    if es != [] {
      ReplayKeepsSearchable(s, es[..|es| - 1]);
      DecodeIsClean(es[|es| - 1]);
      EffectKeepsSearchable(Replay(s, es[..|es| - 1]).tree, Decode(es[|es| - 1]));
    }
  }

  lemma EffectKeepsSearchable(t: Tree, ev: Event)
    requires AllSearchable(t)
    requires CleanEvent(ev)
    ensures AllSearchable(Effect(t, ev).tree)
  {
  }
}
