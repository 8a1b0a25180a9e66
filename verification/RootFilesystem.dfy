/** The unpacker itself: the loops of cmd/macker/oci.go over a mutable root filesystem, proved against the
    declarative effects in Layers. The system calls below demand paths without "." or ".." components and report
    ThroughSymlink when the kernel would leave the path through a symlink; a ghost log of those that were made shows
    that it never does. */
module RootFilesystem {
  import opened Text
  import opened Paths
  import opened FileTree
  import opened Layers
  import opened Modes

  /** `os.RemoveAll`. */
  function RemoveAllCall(t: Tree, p: Path): Outcome
    requires RealPath(p)
  {
    if Crosses(t, p) then Outcome(t, Failed(ThroughSymlink)) else Outcome(Without(t, p), Done)
  }

  /** `os.Remove` on something that is not a directory. */
  function RemoveCall(t: Tree, p: Path): Outcome
    requires RealPath(p) && p in t && !t[p].Dir?
  {
    if Crosses(t, p) then Outcome(t, Failed(ThroughSymlink)) else Outcome(t - {p}, Done)
  }

  /** `os.Mkdir`, `os.OpenFile` with O_EXCL, and `os.Symlink`: one new node under an existing directory. */
  function CreateCall(t: Tree, p: Path, node: Node): Outcome
    requires RealPath(p) && p != []
  {
    if Crosses(t, p) then Outcome(t, Failed(ThroughSymlink))
    else if Blocked(t, p) then Outcome(t, Failed(NotDirectory))
    else if Parent(p) !in t then Outcome(t, Failed(Missing))
    else if p in t then Outcome(t, Failed(Exists))
    else Outcome(t[p := node], Done)
  }

  /** `os.MkdirAll`. */
  function MkdirAllCall(t: Tree, p: Path): Outcome
    requires RealPath(p)
  {
    if Crosses(t, p) || (p in t && t[p].Symlink?) then Outcome(t, Failed(ThroughSymlink))
    else if Blocked(t, p) || (p in t && !t[p].Dir?) then Outcome(t, Failed(NotDirectory))
    else Outcome(map q | q in t.Keys + Prefixes(p) :: if q in t then t[q] else Dir(DEFAULT_DIR_MODE), Done)
  }

  /** `os.Link`; only regular files can be shared here. */
  function LinkCall(t: Tree, source: Path, p: Path): Outcome
    requires RealPath(p) && RealPath(source) && p != []
  {
    if Crosses(t, source) || Crosses(t, p) then Outcome(t, Failed(ThroughSymlink))
    else if Parent(p) !in t || source !in t then Outcome(t, Failed(Missing))
    else if !t[source].File? then Outcome(t, Failed(Unsupported))
    else CreateCall(t, p, t[source])
  }

  function Children(t: Tree, p: Path): set<Path> {
    set q | q in t && |q| == |p| + 1 && p < q :: q
  }

  lemma {:induction false} DeepestExists(paths: set<Path>) returns (p: Path)
    requires paths != {}
    ensures p in paths && forall q | q in paths :: |q| <= |p|
    decreases paths
  {
    p :| p in paths;
    if paths - {p} != {} {
      var r := DeepestExists(paths - {p});
      if |p| < |r| { p := r; }
    } else {
      assert paths == {p};
    }
  }

  /** `order` lists, deepest first, the recorded paths that no longer remain to be visited. */
  ghost predicate Visited(modes: map<Path, nat>, order: seq<Path>, remaining: set<Path>) {
    && remaining <= modes.Keys
    && (forall p :: p in order <==> p in modes && p !in remaining)
    && (forall i, j | 0 <= i < j < |order| :: order[i] != order[j] && |order[j]| <= |order[i]|)
    && (forall q, i | q in remaining && 0 <= i < |order| :: |q| <= |order[i]|)
  }

  lemma VisitOne(modes: map<Path, nat>, order: seq<Path>, remaining: set<Path>, p: Path)
    requires Visited(modes, order, remaining)
    requires p in remaining && forall q | q in remaining :: |q| <= |p|
    ensures Visited(modes, order + [p], remaining - {p})
  {
    var further := order + [p];
    forall q
      ensures q in further <==> q in modes && q !in remaining - {p}
    {
      assert q in further <==> q in order || q == p;
    }
    forall i, j | 0 <= i < j < |further|
      ensures further[i] != further[j] && |further[j]| <= |further[i]|
    {
      assert further[i] in order;
    }
  }

  /** A path handed to a system call, and the tree it met. */
  datatype Call = Call(tree: Tree, path: Path)

  /** The call acts below the root: nothing leads its path out and nothing stands in its way. */
  ghost predicate Inside(c: Call) {
    RealPath(c.path) && !Crosses(c.tree, c.path) && !Blocked(c.tree, c.path)
  }

  /** In other words, the path has no "..", and each proper ancestor is a real directory or missing at that moment. */
  lemma InsideMeaning(c: Call)
    ensures Inside(c) <==>
            RealPath(c.path) && forall k :: 0 <= k < |c.path| && c.path[..k] in c.tree ==> c.tree[c.path[..k]].Dir?
  {
  }

  ghost predicate MoreInside(before: seq<Call>, after: seq<Call>) {
    before <= after && forall k :: |before| <= k < |after| ==> Inside(after[k])
  }

  lemma StillInside(a: seq<Call>, b: seq<Call>, c: seq<Call>)
    requires MoreInside(a, b) && MoreInside(b, c)
    ensures MoreInside(a, c)
  {
  }

  lemma ChmodOneMore(start: Tree, modes: map<Path, nat>, order: seq<Path>, p: Path, follow: Follow)
    requires p in modes && forall q :: q in order ==> q in modes
    ensures ChmodAll(start, modes, order + [p], follow)
             == ChmodNext(ChmodAll(start, modes, order, follow), p, modes[p], follow)
  {
    assert (order + [p])[..|order|] == order;
  }

  /** After an error the order of the rest does not matter. */
  lemma {:induction false} FailedOrder(start: Tree, modes: map<Path, nat>, remaining: set<Path>, order: seq<Path>,
        follow: Follow)
    returns (full: seq<Path>)
    requires Visited(modes, order, remaining)
    requires remaining == {} || ChmodAll(start, modes, order, follow).status.Failed?
    ensures DeepestFirst(modes, full) && ChmodAll(start, modes, full, follow) == ChmodAll(start, modes, order, follow)
    decreases remaining
  {
    full := order;
    if remaining != {} {
      var p := DeepestExists(remaining);
      VisitOne(modes, order, remaining, p);
      ChmodOneMore(start, modes, order, p, follow);
      full := FailedOrder(start, modes, remaining - {p}, order + [p], follow);
    }
  }

  class RootFS {
    var nodes: Tree

    /** Every path that a creating, replacing, linking or removing system call was given. */
    ghost var calls: seq<Call>

    constructor (tree: Tree)
      ensures nodes == tree && calls == []
    {
      nodes, calls := tree, [];
    }

    /** A system call on `p` that comes out as `out`. */
    method Perform(p: Path, out: Outcome) returns (status: Status)
      requires Inside(Call(nodes, p))
      modifies this
      ensures Outcome(nodes, status) == out
      ensures calls == old(calls) + [Call(old(nodes), p)] && MoreInside(old(calls), calls)
    {
      calls := calls + [Call(nodes, p)];
      nodes, status := out.tree, out.status;
    }

    /** ensureOCINoSymlinkParents: walks down from the root until something is missing. */
    method EnsureNoSymlinkParents(p: Path) returns (status: Status)
      ensures status == CheckParents(nodes, p)
    {
      var k := 1;
      while k <= |p|
        invariant 1 <= k <= |p| + 1
        invariant CheckParents(nodes, p) == FirstObstacle(nodes, p, k)
      {
        var current := p[..k];
        if current !in nodes { return Done; }
        if nodes[current].Symlink? { return Failed(SymlinkParent); }
        if !nodes[current].Dir? { return Failed(NotDirectory); }
        k := k + 1;
      }
      status := Done;
    }

    /** removeOCIExisting. */
    method RemoveExisting(p: Path) returns (status: Status)
      requires Closed(nodes) && CleanPath(p) && !Crosses(nodes, p) && !Blocked(nodes, p)
      modifies this
      ensures status.Done? && nodes == Without(old(nodes), p)
      ensures MoreInside(old(calls), calls)
    {
      ExistingRemoved(nodes, p);
      if p !in nodes { return Done; }
      status := Perform(p, if nodes[p].Dir? then RemoveAllCall(nodes, p) else RemoveCall(nodes, p));
    }

    /** ensureDirectory. */
    method EnsureDirectory(p: Path) returns (status: Status)
      requires Closed(nodes) && CleanPath(p) && p != [] && CheckParents(nodes, Parent(p)).Done?
      modifies this
      ensures status.Done? && nodes == WithDirectory(old(nodes), p)
      ensures MoreInside(old(calls), calls)
    {
      CheckParentsMeaning(nodes, Parent(p));
      ClearParentsReach(nodes, p, Parent(p));
      if p in nodes {
        if nodes[p].Dir? {
          DirectoryKept(nodes, p);
          return Done;
        }
        DirectoryReplaces(nodes, p);
        status := RemoveExisting(p);
        status := Perform(p, CreateCall(nodes, p, Dir(DEFAULT_DIR_MODE)));
      } else {
        DirectoryMade(nodes, p);
        status := Perform(p, MkdirAllCall(nodes, p));
      }
    }

    /** The opaque branch of applyWhiteout: every child of the directory, in any order, with all below it. */
    method EmptyDirectory(parent: Path)
      requires Closed(nodes) && RealTree(nodes)
      modifies this
      ensures nodes == Emptied(old(nodes), parent)
      ensures MoreInside(old(calls), calls)
    {
      ghost var before, children := nodes, Children(nodes, parent);
      var entries := Children(nodes, parent);
      ChildrenReach(before, parent);
      while entries != {}
        invariant children == Children(before, parent) && entries <= children
        invariant nodes == Remaining(before, parent, entries)
        invariant MoreInside(old(calls), calls)
      {
        var child :| child in entries;
        ghost var logged := calls;
        RemoveChild(before, parent, entries, child);
        StillInside(old(calls), logged, calls);
        entries := entries - {child};
      }
      AllRemoved(before, parent);
    }

    method RemoveChild(ghost before: Tree, ghost parent: Path, ghost entries: set<Path>, child: Path)
      requires Closed(before) && RealTree(before) && child in entries && entries <= Children(before, parent)
      requires nodes == Remaining(before, parent, entries)
      modifies this
      ensures MoreInside(old(calls), calls)
      ensures nodes == Remaining(before, parent, entries - {child})
    {
      RemovingChild(before, parent, entries, child);
      var status := Perform(child, RemoveAllCall(nodes, child));
    }

    /** applyWhiteout. */
    method ApplyWhiteout(rel: Path) returns (status: Status)
      requires Closed(nodes) && RealTree(nodes) && CleanPath(rel) && rel != [] && WhiteoutName(Base(rel))
      modifies this
      ensures Outcome(nodes, status) == Effect(old(nodes), DecodeWhiteout(rel))
      ensures MoreInside(old(calls), calls)
    {
      var parent := Parent(rel);
      assert Guards(DecodeWhiteout(rel)) == [parent];
      status := EnsureNoSymlinkParents(parent);
      if status.Failed? { return; }
      assert CheckAll(nodes, [parent]).Done?;
      if Base(rel) == OPAQUE {
        EmptyDirectory(parent);
        return Done;
      }
      var name := Base(rel)[|WHITEOUT|..];
      if name == "" { return Failed(BadWhiteout); }
      var target := Lexical(parent + [name]);
      if target != [] && target[0] == ".." { return Failed(Unsafe); }
      CheckParentsMeaning(nodes, parent);
      TargetReach(nodes, rel);
      status := Perform(target, RemoveAllCall(nodes, target));
    }

    /** A file or symlink entry: whatever was there goes first. */
    method ReplaceWith(p: Path, node: Node) returns (status: Status)
      requires Closed(nodes) && CleanPath(p) && p != [] && ParentsClear(nodes, Parent(p))
      modifies this
      ensures Outcome(nodes, status) == Added(old(nodes), p, node)
      ensures MoreInside(old(calls), calls)
    {
      ClearParentsReach(nodes, p, Parent(p));
      StillReach(nodes, p);
      status := RemoveExisting(p);
      status := Perform(p, CreateCall(nodes, p, node));
    }

    /** A hard link entry, once both parents have been checked. */
    method ReplaceWithLink(p: Path, source: Path) returns (status: Status)
      requires Closed(nodes) && CleanPath(p) && CleanPath(source) && p != []
      requires ParentsClear(nodes, Parent(p)) && ParentsClear(nodes, Up(source))
      modifies this
      ensures Outcome(nodes, status) == Linked(old(nodes), p, source)
      ensures MoreInside(old(calls), calls)
    {
      ClearParentsReach(nodes, p, Parent(p));
      StillReach(nodes, p);
      SourceReach(nodes, p, source);
      status := RemoveExisting(p);
      calls := calls + [Call(nodes, source)];
      status := Perform(p, LinkCall(nodes, source, p));
    }

    /** One iteration of applyTarLayer's loop on an entry that is neither "." nor a whiteout. */
    method ApplyEntry(e: Entry, rel: Path) returns (status: Status)
      requires Closed(nodes) && CleanArchivePath(e.name) == Ok(rel) && rel != [] && !WhiteoutName(Base(rel))
      modifies this
      ensures Outcome(nodes, status) == Effect(old(nodes), Decode(e))
      ensures MoreInside(old(calls), calls)
    {
      status := EnsureNoSymlinkParents(Parent(rel));
      FirstGuard(nodes, Decode(e), Parent(rel));
      if status.Failed? { return; }
      CheckParentsMeaning(nodes, Parent(rel));
      match e.kind
      case DirectoryKind =>
        status := EnsureDirectory(rel);
      case RegularKind(content) =>
        status := ReplaceWith(rel, File(content, Perm(e.mode)));
      case SymlinkKind(link) =>
        status := ReplaceWith(rel, Symlink(link));
      case HardLinkKind(link) =>
        var source := CleanArchivePath(link);
        if source.Err? { return Failed(Unsafe); }
        status := EnsureNoSymlinkParents(Up(source.value));
        if status.Failed? { return; }
        CheckParentsMeaning(nodes, Up(source.value));
        status := ReplaceWithLink(rel, source.value);
      case OtherKind =>
        status := Failed(Unsupported);
    }

    /** The directory-mode phase; the choice stands for any map order and any unstable sort. */
    method ApplyDirectoryModes(modes: map<Path, nat>, follow: Follow)
      returns (status: Status, ghost escapes: seq<Path>, ghost order: seq<Path>)
      modifies this`nodes
      ensures DeepestFirst(modes, order) && Phase(nodes, escapes, status) == ChmodAll(old(nodes), modes, order, follow)
    {
      ghost var start := nodes;
      var remaining := modes.Keys;
      order, escapes := [], [];
      while remaining != {}
        invariant Visited(modes, order, remaining)
        invariant ChmodAll(start, modes, order, follow) == Phase(nodes, escapes, Done)
      {
        ghost var deepest := DeepestExists(remaining);
        var p :| p in remaining && forall q | q in remaining :: |q| <= |p|;
        VisitOne(modes, order, remaining, p);
        ChmodOneMore(start, modes, order, p, follow);
        escapes := if Escapes(nodes, p) then escapes + [p] else escapes;
        var out := Chmod(nodes, p, modes[p], follow);
        nodes, status := out.tree, out.status;
        remaining, order := remaining - {p}, order + [p];
        if status.Failed? {
          order := FailedOrder(start, modes, remaining, order, follow);
          return;
        }
      }
      status := Done;
    }

    /** The body of applyTarLayer's loop. */
    method ApplyHeader(e: Entry, modes: map<Path, nat>) returns (modes': map<Path, nat>, status: Status)
      requires Closed(nodes) && RealTree(nodes)
      modifies this
      ensures State(nodes, modes', status) == Step(State(old(nodes), modes, Done), e)
      ensures MoreInside(old(calls), calls)
    {
      modes', status := modes, Done;
      var name := CleanArchivePath(e.name);
      NoPlace(nodes, e);
      if name.Err? {
        StepOutcome(nodes, modes, e, nodes, Failed(Unsafe));
        return modes, Failed(Unsafe);
      }
      var rel := name.value;
      if rel == [] {
        StepOutcome(nodes, modes, e, nodes, Done);
        return;
      }
      KindOfEvent(e, rel);
      if WhiteoutName(Base(rel)) {
        status := ApplyWhiteout(rel);
        StepOutcome(old(nodes), modes, e, nodes, status);
        return;
      }
      status := ApplyEntry(e, rel);
      StepOutcome(old(nodes), modes, e, nodes, status);
      if status.Done? && e.kind.DirectoryKind? {
        modes' := modes[rel := Perm(e.mode)];
      }
    }

    /** applyTarLayer. Up to the mode phase it is the declarative replay, and every system call of it acts below the
        root; then come the recorded modes, in some order that puts deeper paths first. */
    method ApplyTarLayer(entries: seq<Entry>, follow: Follow) returns (status: Status, ghost escapes: seq<Path>)
      requires Closed(nodes) && RealTree(nodes)
      modifies this
      ensures LayerApplied(old(nodes), entries, follow, Phase(nodes, escapes, status))
      ensures Closed(nodes) && RealTree(nodes) && MoreInside(old(calls), calls)
    {
      ghost var start := State(nodes, map[], Done);
      var directoryModes: map<Path, nat> := map[];
      var i := 0;
      while i < |entries|
        invariant 0 <= i <= |entries|
        invariant Replay(start, entries[..i]) == State(nodes, directoryModes, Done)
        invariant Closed(nodes) && RealTree(nodes)
        invariant MoreInside(old(calls), calls)
      {
        StepStays(nodes, entries[i]);
        assert entries[..i + 1][..i] == entries[..i];
        directoryModes, status := ApplyHeader(entries[i], directoryModes);
        i := i + 1;
        if status.Failed? {
          ReplayStops(start, entries, i);
          escapes := [];
          return;
        }
      }
      assert entries[..i] == entries;
      ghost var order, replayed := [], nodes;
      status, escapes, order := ApplyDirectoryModes(directoryModes, follow);
      ChmodAllOnlyModes(replayed, directoryModes, order, follow);
      OnlyModesKeepShape(replayed, nodes);
    }

    /** unpackImage, once the output directory is there: layer after layer until one fails. */
    method UnpackImage(layers: seq<seq<Entry>>, follow: Follow) returns (status: Status, ghost phases: seq<Phase>)
      requires Closed(nodes) && RealTree(nodes)
      modifies this
      ensures ImageApplied(old(nodes), layers, follow, phases) && nodes == TreeAfter(old(nodes), phases)
      ensures status == if phases == [] then Done else phases[|phases| - 1].status
      ensures status.Done? ==> |phases| == |layers|
      ensures Closed(nodes) && RealTree(nodes) && MoreInside(old(calls), calls)
    {
      phases, status := [], Done;
      for i := 0 to |layers|
        invariant |phases| == i && ImageApplied(old(nodes), layers, follow, phases)
                 && nodes == TreeAfter(old(nodes), phases)
        invariant status.Done? && (phases != [] ==> phases[i - 1].status.Done?)
        invariant Closed(nodes) && RealTree(nodes) && MoreInside(old(calls), calls)
      {
        ghost var before, logged := nodes, calls;
        ghost var escapes;
        status, escapes := ApplyTarLayer(layers[i], follow);
        StillInside(old(calls), logged, calls);
        OneMoreLayer(old(nodes), layers, follow, phases, Phase(nodes, escapes, status));
        phases := phases + [Phase(nodes, escapes, status)];
        if status.Failed? { return; }
      }
    }
  }

  /** What a layer does to a tree: the replay, then, if that went through, the recorded directory modes. */
  ghost predicate LayerApplied(before: Tree, entries: seq<Entry>, follow: Follow, result: Phase) {
    var r := Replay(State(before, map[], Done), entries);
    if r.status.Failed? then result == Phase(r.tree, [], r.status)
    else exists order: seq<Path> :: DeepestFirst(r.modes, order) && result == ChmodAll(r.tree, r.modes, order, follow)
  }

  /** From searchable directories: the replay's error, or what the mode phase comes to. */
  lemma LayerExactly(before: Tree, entries: seq<Entry>, follow: Follow, result: Phase)
    requires AllSearchable(before) && LayerApplied(before, entries, follow, result)
    ensures var r := Replay(State(before, map[], Done), entries);
            && (r.status.Failed? ==> result == Phase(r.tree, [], r.status))
            && (r.status.Done? ==>
                  && OnlyModes(r.tree, result.tree)
                  && (result.escapes == [] && result.status.Done? <==> Benign(r.tree, r.modes))
                  && (Benign(r.tree, r.modes) ==> result.tree == Settle(r.tree, r.modes))
                  && (result.escapes == [] ==> (result.status.Failed? <==> SomeObstructedIn(r.tree, r.modes)))
                  && (!SomeObstructedIn(r.tree, r.modes) ==>
                          (result.escapes != [] <==> SomeThroughIn(r.tree, r.modes))))
  {
    var r := Replay(State(before, map[], Done), entries);
    ReplayKeepsSearchable(State(before, map[], Done), entries);
    if r.status.Done? {
      var order :| DeepestFirst(r.modes, order) && result == ChmodAll(r.tree, r.modes, order, follow);
      DeferredModes(r.tree, r.modes, order, follow);
      ChmodAllOnlyModes(r.tree, r.modes, order, follow);
      AnyOrder(r.tree, r.modes, order);
    }
  }

  /** A replay that leaves a benign tree settles. */
  lemma BenignLayer(before: Tree, entries: seq<Entry>, follow: Follow, result: Phase, t: Tree, modes: map<Path, nat>)
    requires AllSearchable(before) && LayerApplied(before, entries, follow, result)
    requires Replay(State(before, map[], Done), entries) == State(t, modes, Done) && Benign(t, modes)
    ensures result == Phase(Settle(t, modes), [], Done)
  {
    LayerExactly(before, entries, follow, result);
  }

  ghost predicate SomeObstructedIn(t: Tree, modes: map<Path, nat>) {
    exists p :: p in modes && Obstructed(t, p)
  }

  ghost predicate SomeThroughIn(t: Tree, modes: map<Path, nat>) {
    exists p :: p in modes && Through(t, p)
  }

  lemma OnlyModesKeepShape(t: Tree, u: Tree)
    requires OnlyModes(t, u) && Closed(t) && RealTree(t)
    ensures Closed(u) && RealTree(u)
  {
    forall p
      ensures IsDir(u, p) <==> IsDir(t, p)
    {
      if p in t { SameKind(u[p], t[p]); }
    }
    SameDirectoriesKeepShape(t, u);
  }

  lemma SameKind(a: Node, b: Node)
    requires WithMode(a, 0) == WithMode(b, 0)
    ensures a.Dir? == b.Dir? && a.File? == b.File? && (a.Symlink? || a.Special? || b.Symlink? || b.Special? ==> a == b)
  {
  }

  lemma SameDirectoriesKeepShape(t: Tree, u: Tree)
    requires u.Keys == t.Keys && (forall p :: IsDir(u, p) <==> IsDir(t, p)) && Closed(t) && RealTree(t)
    ensures Closed(u) && RealTree(u)
  {
    assert [] in u ==> IsDir(u, []);
    forall p | p in u && p != []
      ensures IsDir(u, Parent(p))
    {
      assert IsDir(t, Parent(p));
    }
  }

  ghost function TreeAfter(before: Tree, phases: seq<Phase>): Tree {
    if phases == [] then before else phases[|phases| - 1].tree
  }

  /** Each phase is one layer applied to what the one before left, and none comes after a failure. */
  ghost predicate ImageApplied(before: Tree, layers: seq<seq<Entry>>, follow: Follow, phases: seq<Phase>) {
    && |phases| <= |layers|
    && forall i :: 0 <= i < |phases| ==>
         && LayerApplied(TreeAfter(before, phases[..i]), layers[i], follow, phases[i])
         && (i + 1 < |phases| ==> phases[i].status.Done?)
  }

  lemma OneMoreLayer(before: Tree, layers: seq<seq<Entry>>, follow: Follow, phases: seq<Phase>, next: Phase)
    requires ImageApplied(before, layers, follow, phases) && |phases| < |layers|
    requires phases != [] ==> phases[|phases| - 1].status.Done?
    requires LayerApplied(TreeAfter(before, phases), layers[|phases|], follow, next)
    ensures ImageApplied(before, layers, follow, phases + [next])
  {
    var more := phases + [next];
    forall i | 0 <= i < |more|
      ensures LayerApplied(TreeAfter(before, more[..i]), layers[i], follow, more[i])
      ensures i + 1 < |more| ==> more[i].status.Done?
    {
      assert more[..i] == phases[..i];
      if i == |phases| { assert phases[..i] == phases; }
    }
  }

  lemma AnyOrder(t: Tree, modes: map<Path, nat>, order: seq<Path>)
    requires DeepestFirst(modes, order)
    ensures SomeObstructed(t, order) <==> SomeObstructedIn(t, modes)
    ensures !SomeObstructedIn(t, modes) ==> (LeadsOut(t, order) <==> SomeThroughIn(t, modes))
  {
    if SomeThroughIn(t, modes) && !SomeObstructedIn(t, modes) {
      var p :| p in modes && Through(t, p);
      var i :| 0 <= i < |order| && order[i] == p;
      forall j | 0 <= j < i
        ensures !Obstructed(t, order[j])
      {
        assert order[j] in order;
      }
    }
    if LeadsOut(t, order) {
      var i :| 0 <= i < |order| && Through(t, order[i]) && forall j :: 0 <= j < i ==> !Obstructed(t, order[j]);
      assert order[i] in order;
    }
  }

  lemma NoPlace(t: Tree, e: Entry)
    ensures CleanArchivePath(e.name).Err? ==>
             Effect(t, Decode(e)) == Outcome(t, Failed(Unsafe)) && !Decode(e).AddDirectory?
    ensures CleanArchivePath(e.name) == Ok([]) ==> Effect(t, Decode(e)) == Outcome(t, Done) && !Decode(e).AddDirectory?
  {
  }

  lemma StepOutcome(t: Tree, modes: map<Path, nat>, e: Entry, after: Tree, status: Status)
    requires Effect(t, Decode(e)) == Outcome(after, status)
    ensures Step(State(t, modes, Done), e)
            == State(after, if status.Done? && Decode(e).AddDirectory? then modes[Decode(e).at := Decode(e).mode]
                else modes, status)
  {
  }

  lemma KindOfEvent(e: Entry, rel: Path)
    requires CleanArchivePath(e.name) == Ok(rel) && rel != []
    ensures WhiteoutName(Base(rel)) ==> Decode(e) == DecodeWhiteout(rel) && !Decode(e).AddDirectory?
    ensures !WhiteoutName(Base(rel)) && e.kind.DirectoryKind? ==> Decode(e) == AddDirectory(rel, Perm(e.mode))
    ensures !WhiteoutName(Base(rel)) && !e.kind.DirectoryKind? ==> !Decode(e).AddDirectory?
  {
  }

  lemma StepStays(t: Tree, e: Entry)
    requires Closed(t) && RealTree(t)
    ensures Closed(Effect(t, Decode(e)).tree) && RealTree(Effect(t, Decode(e)).tree)
  {
    DecodeIsClean(e);
    EffectKeepsClosed(t, Decode(e));
    EffectKeepsReal(t, Decode(e));
  }

  lemma EffectKeepsReal(t: Tree, ev: Event)
    requires RealTree(t) && CleanEvent(ev)
    ensures RealTree(Effect(t, ev).tree)
  {
    forall p | p in Effect(t, ev).tree
      ensures RealPath(p)
    {
      if p !in t {
        var at := match ev case AddDirectory(at, _) => at case AddLeaf(at, _) => at case AddLink(at, _) => at case _ =>
            [];
        assert p <= at;
        forall i | 0 <= i < |p|
          ensures RealName(p[i])
        {
          assert PlainName(at[i]);
        }
      }
    }
  }

  lemma FirstGuard(t: Tree, ev: Event, g: Path)
    requires Guards(ev) != [] && Guards(ev)[0] == g
    ensures CheckParents(t, g).Failed? ==> CheckAll(t, Guards(ev)) == CheckParents(t, g)
    ensures CheckParents(t, g).Done? && |Guards(ev)| == 1 ==> CheckAll(t, Guards(ev)) == Done
    ensures CheckParents(t, g).Done? && |Guards(ev)| == 2 ==> CheckAll(t, Guards(ev)) == CheckParents(t, Guards(ev)[1])
  {
    var rest := Guards(ev)[1..];
    if |Guards(ev)| == 2 {
      assert rest[0] == Guards(ev)[1] && rest[1..] == [];
      assert CheckAll(t, rest[1..]) == Done;
    }
  }

  /** The three ways ensureDirectory goes, each against the declarative result. */
  lemma DirectoryKept(t: Tree, p: Path)
    requires Closed(t) && p != [] && ParentsClear(t, Parent(p)) && IsDir(t, p)
    ensures WithDirectory(t, p) == t
  {
    forall q
      ensures q in WithDirectory(t, p) <==> q in t
      ensures q in t ==> WithDirectory(t, p)[q] == t[q]
    {
      if q <= p { PrefixBelow(t, p, q); }
    }
  }

  lemma DirectoryReplaces(t: Tree, p: Path)
    requires Closed(t) && RealPath(p) && p != [] && ParentsClear(t, Parent(p)) && p in t && !t[p].Dir?
    ensures CreateCall(Without(t, p), p, Dir(DEFAULT_DIR_MODE)) == Outcome(WithDirectory(t, p), Done)
  {
    StillReach(t, p);
    ExistingRemoved(t, p);
    assert Parent(p) in Without(t, p);
    DirectoryInPlace(t, p);
  }

  lemma DirectoryInPlace(t: Tree, p: Path)
    requires Closed(t) && p != [] && p in t && !t[p].Dir?
    ensures WithDirectory(t, p) == (t - {p})[p := Dir(DEFAULT_DIR_MODE)]
  {
    var w, v := WithDirectory(t, p), (t - {p})[p := Dir(DEFAULT_DIR_MODE)];
    forall q
      ensures q in w <==> q in v
    {
      if q <= p && q != p { AboveIsDirectory(t, p, q); }
    }
    forall q | q in w
      ensures w[q] == v[q]
    {
      if q <= p && q != p { AboveIsDirectory(t, p, q); }
    }
  }

  lemma DirectoryMade(t: Tree, p: Path)
    requires Closed(t) && RealPath(p) && p != [] && ParentsClear(t, Parent(p)) && p !in t
    ensures MkdirAllCall(t, p) == Outcome(WithDirectory(t, p), Done)
  {
    ClearParentsReach(t, p, Parent(p));
    forall q | q <= p && q in t
      ensures t[q].Dir?
    {
      PrefixBelow(t, p, q);
    }
    OnlyMissingAreMade(t, p);
  }

  lemma OnlyMissingAreMade(t: Tree, p: Path)
    requires RealPath(p) && !Crosses(t, p) && !Blocked(t, p) && p !in t
    requires forall q | q <= p && q in t :: t[q].Dir?
    ensures MkdirAllCall(t, p) == Outcome(WithDirectory(t, p), Done)
  {
    var w, made := WithDirectory(t, p), MkdirAllCall(t, p).tree;
    assert forall q :: q in w <==> q in made;
    assert forall q | q in w :: w[q] == made[q];
  }

  ghost predicate Kept(parent: Path, entries: set<Path>, q: Path) {
    parent < q ==> q[..|parent| + 1] in entries
  }

  /** What is left of `t` while the children of `parent` still to be removed are `entries`. */
  ghost function Remaining(t: Tree, parent: Path, entries: set<Path>): Tree {
    map q | q in t && Kept(parent, entries, q) :: t[q]
  }

  lemma ChildrenReach(t: Tree, parent: Path)
    requires Closed(t)
    ensures Remaining(t, parent, Children(t, parent)) == t
  {
    forall q | q in t && parent < q
      ensures q[..|parent| + 1] in Children(t, parent)
    {
      var child := q[..|parent| + 1];
      if child != q {
        AncestorsAreDirectories(t, q, child);
      }
    }
  }

  lemma AllRemoved(t: Tree, parent: Path)
    ensures Remaining(t, parent, {}) == Emptied(t, parent)
  {
  }

  lemma KeptLess(parent: Path, entries: set<Path>, child: Path, q: Path)
    requires |child| == |parent| + 1 && parent < child && child in entries
    ensures Kept(parent, entries - {child}, q) <==> Kept(parent, entries, q) && !(child <= q)
  {
    if child <= q {
      assert q[..|parent| + 1] == child;
      assert q[..|parent|] == child[..|parent|] == parent;
    }
  }

  lemma PartReach(t: Tree, part: Tree, p: Path)
    requires Closed(t) && p in t && forall q | q in part :: q in t && part[q] == t[q]
    ensures !Crosses(part, p) && !Blocked(part, p)
  {
    forall k | 0 <= k < |p| && p[..k] in part
      ensures part[p[..k]].Dir?
    {
      AncestorsAreDirectories(t, p, p[..k]);
    }
  }

  lemma RemovingChild(t: Tree, parent: Path, entries: set<Path>, child: Path)
    requires Closed(t) && RealTree(t) && child in entries && entries <= Children(t, parent)
    ensures Inside(Call(Remaining(t, parent, entries), child))
    ensures RemoveAllCall(Remaining(t, parent, entries), child)
            == Outcome(Remaining(t, parent, entries - {child}), Done)
  {
    assert child in Children(t, parent);
    PartReach(t, Remaining(t, parent, entries), child);
    RemainingLess(t, parent, entries, child);
  }

  lemma RemainingLess(t: Tree, parent: Path, entries: set<Path>, child: Path)
    requires child in entries && |child| == |parent| + 1 && parent < child
    ensures Without(Remaining(t, parent, entries), child) == Remaining(t, parent, entries - {child})
  {
    var now, next := Without(Remaining(t, parent, entries), child), Remaining(t, parent, entries - {child});
    forall q
      ensures q in now <==> q in next
    {
      KeptLess(parent, entries, child, q);
    }
  }

  lemma TargetReach(t: Tree, rel: Path)
    requires Closed(t) && CleanPath(rel) && rel != [] && WhiteoutName(Base(rel)) && ParentsClear(t, Parent(rel))
    ensures DecodeWhiteout(rel).Hide? ==>
             CleanPath(DecodeWhiteout(rel).target) && Inside(Call(t, DecodeWhiteout(rel).target))
  {
    WhiteoutIsClean(rel);
    var ev := DecodeWhiteout(rel);
    if ev.Hide? {
      ClearAlong(t, Parent(rel), ev.target);
    }
  }

  lemma ClearAlong(t: Tree, up: Path, target: Path)
    requires Closed(t) && ParentsClear(t, up) && Up(target) <= up
    ensures !Crosses(t, target) && !Blocked(t, target)
  {
    forall k | 0 <= k < |target| && target[..k] in t
      ensures t[target[..k]].Dir?
    {
      assert target[..k] == up[..k];
    }
  }

  lemma StillReach(t: Tree, p: Path)
    requires Closed(t) && p != [] && ParentsClear(t, Parent(p))
    ensures !Crosses(Without(t, p), p) && !Blocked(Without(t, p), p)
  {
    ClearParentsReach(t, p, Parent(p));
  }

  lemma SourceReach(t: Tree, p: Path, source: Path)
    requires Closed(t) && ParentsClear(t, Up(source))
    ensures !Crosses(Without(t, p), source) && !Blocked(Without(t, p), source)
  {
    if source != [] {
      ClearParentsReach(t, source, Parent(source));
    }
  }

  lemma {:induction false} ReplayStops(s: State, es: seq<Entry>, i: nat)
    requires i <= |es| && Replay(s, es[..i]).status.Failed?
    ensures Replay(s, es) == Replay(s, es[..i])
    decreases |es|
  {
    if i < |es| {
      assert es[..|es| - 1][..i] == es[..i];
      ReplayStops(s, es[..|es| - 1], i);
    } else {
      assert es[..i] == es;
    }
  }
}
