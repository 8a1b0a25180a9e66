/** Packing a directory tree into a layer (cmd/macker/oci.go, makeLayer) and unpacking it again. */
module RoundTrip {
  import opened Text
  import opened Paths
  import opened FileTree
  import opened Layers
  import opened Modes
  import opened RootFilesystem

  /** A directory as the file system presents it. */
  ghost predicate HostTree(t: Tree) {
    [] in t && Closed(t) && RealTree(t)
  }

  predicate HasSpecial(t: Tree) {
    exists p :: p in t && t[p].Special?
  }

  /** The header and content makeLayer writes for one node. */
  function EntryOf(t: Tree, p: Path): Entry
    requires p in t && !t[p].Special?
  {
    match t[p]
    case Dir(mode) => Entry(Render(p) + "/", DirectoryKind, mode)
    case File(content, mode) => Entry(Render(p), RegularKind(content), mode)
    case Symlink(target) => Entry(Render(p), SymlinkKind(target), 0x1FF)
  }

  function Stream(t: Tree, order: seq<Path>): seq<Entry>
    requires forall p | p in order :: p in t && !t[p].Special?
    decreases |order|
  {
    if order == [] then []
    else Stream(t, order[..|order| - 1]) + [EntryOf(t, order[|order| - 1])]
  }

  /** A walk so far: nodes below the root, each once, each after its parent. */
  ghost predicate WalkPrefix(t: Tree, order: seq<Path>) {
    && (forall i | 0 <= i < |order| :: order[i] in t && order[i] != [] && !t[order[i]].Special?)
    && (forall i, j | 0 <= i < j < |order| :: order[i] != order[j])
    && (forall i | 0 <= i < |order| :: Parent(order[i]) == [] || Parent(order[i]) in order[..i])
  }

  /** A complete walk. `filepath.WalkDir` visits in one such order. */
  ghost predicate Walk(t: Tree, order: seq<Path>) {
    WalkPrefix(t, order) && forall p | p in t && p != [] :: p in order
  }

  lemma {:induction false} ShallowestExists(paths: set<Path>) returns (p: Path)
    requires paths != {}
    ensures p in paths && forall q | q in paths :: |p| <= |q|
    decreases paths
  {
    p :| p in paths;
    if paths - {p} != {} {
      var r := ShallowestExists(paths - {p});
      if |r| < |p| { p := r; }
    } else {
      assert paths == {p};
    }
  }

  lemma WalkOn(t: Tree, order: seq<Path>, p: Path)
    requires [] in t && Closed(t) && WalkPrefix(t, order) && p in t && p != [] && p !in order && !t[p].Special?
    requires Parent(p) == [] || Parent(p) in order
    ensures WalkPrefix(t, order + [p])
  {
    var further := order + [p];
    forall i | 0 <= i < |further|
      ensures Parent(further[i]) == [] || Parent(further[i]) in further[..i]
    {
      assert i < |order| ==> further[..i] == order[..i];
      assert i == |order| ==> further[..i] == order;
    }
  }

  /** makeLayer: every node below the root becomes an entry, a special file ends the walk with an error. */
  method MakeLayer(t: Tree) returns (r: Result<seq<Entry>, Error>, ghost order: seq<Path>)
    requires HostTree(t)
    ensures r.Err? <==> HasSpecial(t)
    ensures r.Ok? ==> Walk(t, order) && r.value == Stream(t, order)
  {
    var remaining := t.Keys - {[]};
    var entries: seq<Entry> := [];
    order := [];
    while remaining != {}
      invariant remaining <= t.Keys - {[]}
      invariant WalkPrefix(t, order) && entries == Stream(t, order)
      invariant forall p | p in t && p != [] :: p in order <==> p !in remaining
    {
      ghost var first := ShallowestExists(remaining);
      assert Parent(first) !in remaining;
      var p :| p in remaining && (p == [] || Parent(p) !in remaining);
      if t[p].Special? {
        return Err(Unsupported), order;
      }
      WalkOn(t, order, p);
      assert (order + [p])[..|order|] == order;
      entries, order := entries + [EntryOf(t, p)], order + [p];
      remaining := remaining - {p};
    }
    r := Ok(entries);
  }

  /** A name that survives: no backslash to be read as a separator, and not a whiteout. */
  predicate OrdinaryName(n: Name) {
    PlainName(n) && !WhiteoutName(n)
  }

  ghost predicate Ordinary(t: Tree) {
    forall p | p in t && p != [] :: OrdinaryName(Base(p))
  }

  lemma {:induction false} OrdinaryPaths(t: Tree, p: Path)
    requires Closed(t) && Ordinary(t) && p in t
    ensures CleanPath(p)
    decreases |p|
  {
    if p != [] {
      OrdinaryPaths(t, Parent(p));
      forall i | 0 <= i < |p|
        ensures PlainName(p[i])
      {
        assert i < |p| - 1 ==> p[i] == Parent(p)[i];
      }
    }
  }

  function Masked(node: Node): Node {
    match node
    case Dir(mode) => Dir(Perm(mode))
    case File(content, mode) => File(content, Perm(mode))
    case _ => node
  }

  /** The tree as packed, with permission bits only, over the given root directory. */
  function Repacked(t: Tree, rootMode: nat): Tree {
    map p | p in t :: if p == [] then Dir(rootMode) else Masked(t[p])
  }

  function Fresh(rootMode: nat): Tree {
    map[[] := Dir(rootMode)]
  }

  /** The entry's name asks for a removal. */
  predicate Hidden(p: Path) {
    p != [] && WhiteoutName(Base(p))
  }

  /** The entry for `e` removes `p`, should it be there. */
  predicate Clears(e: Path, p: Path) {
    && Hidden(e)
    && match DecodeWhiteout(e)
       case Hide(_, target) => target <= p
       case Empty(at) => at < p
       case _ => false
  }

  /** The entry for `e` makes `p`, or keeps it: itself or, under a directory, as one of its prefixes. */
  predicate Makes(t: Tree, e: Path, p: Path) {
    !Hidden(e) && if IsDir(t, e) then p <= e else p == e
  }

  /** `p` was made by the `j`-th entry and not removed since. */
  ghost predicate MadeAt(t: Tree, order: seq<Path>, j: nat, p: Path) {
    j < |order| && Makes(t, order[j], p) && forall k :: j < k < |order| ==> !Clears(order[k], p)
  }

  /** After the entries of `order` there is something at `p`: it was made and not removed since; the root was there. */
  ghost predicate Standing(t: Tree, order: seq<Path>, p: Path) {
    (p == [] && !Wiped(order)) || exists j :: MadeAt(t, order, j, p)
  }

  /** Some entry removes the root itself. */
  ghost predicate Wiped(order: seq<Path>) {
    exists k :: 0 <= k < |order| && Clears(order[k], [])
  }

  /** The entry for `p` can be applied after `order`: a removal names something below the root, a file or symlink finds
      its directory. */
  ghost predicate Lands(t: Tree, order: seq<Path>, p: Path) {
    if Hidden(p) then !DecodeWhiteout(p).Reject? else IsDir(t, p) || Standing(t, order, Up(p))
  }

  ghost predicate AllEntriesLand(t: Tree, order: seq<Path>) {
    forall i :: 0 <= i < |order| ==> Lands(t, order[..i], order[i])
  }

  /** No backslash to be read as a separator, and no file or symlink to be read as a removal. */
  ghost predicate Readable(t: Tree) {
    forall p | p in t && p != [] :: PlainName(Base(p)) && (Hidden(p) ==> t[p].Dir?)
  }

  /** What a tree and the order of its entries must be like for it to come back: names are readable; directories with
      whiteout names, which are only ever made for the sake of what is in them, have the mode that gives them; every
      entry lands; and in the end everything is standing, the root, if it had to be made again, with that mode too. */
  ghost predicate ComesBack(t: Tree, order: seq<Path>, rootMode: nat) {
    && Readable(t) && AllEntriesLand(t, order)
    && (forall p | p in t :: Standing(t, order, p))
    && (forall p | p in t && Hidden(p) :: Masked(t[p]) == Dir(DEFAULT_DIR_MODE))
    && (Wiped(order) ==> rootMode == DEFAULT_DIR_MODE)
  }

  lemma {:induction false} ReadablePaths(t: Tree, p: Path)
    requires Closed(t) && Readable(t) && p in t
    ensures CleanPath(p)
    decreases |p|
  {
    if p != [] {
      ReadablePaths(t, Parent(p));
      forall i | 0 <= i < |p|
        ensures PlainName(p[i])
      {
        assert i < |p| - 1 ==> p[i] == Parent(p)[i];
      }
    }
  }

  lemma WipedGrows(order: seq<Path>, e: Path)
    ensures Wiped(order + [e]) <==> Wiped(order) || Clears(e, [])
  {
    var more := order + [e];
    assert more[|order|] == e && forall k :: 0 <= k < |order| ==> more[k] == order[k];
    if Wiped(order) {
      var k :| 0 <= k < |order| && Clears(order[k], []);
      assert Clears(more[k], []);
    }
  }

  lemma MadeAtGrows(t: Tree, order: seq<Path>, e: Path, j: nat, p: Path)
    requires j < |order|
    ensures MadeAt(t, order + [e], j, p) <==> MadeAt(t, order, j, p) && !Clears(e, p)
  {
    var more := order + [e];
    assert more[|order|] == e && forall k :: 0 <= k < |order| ==> more[k] == order[k];
    if MadeAt(t, more, j, p) {
      forall k | j < k < |order|
        ensures !Clears(order[k], p)
      {
        assert !Clears(more[k], p);
      }
    }
  }

  /** One more entry: what it makes stands, and what stood stands unless it removes it. */
  lemma StandingGrows(t: Tree, order: seq<Path>, e: Path, p: Path)
    ensures Standing(t, order + [e], p) <==> Makes(t, e, p) || (Standing(t, order, p) && !Clears(e, p))
  {
    var more := order + [e];
    WipedGrows(order, e);
    assert Makes(t, e, p) <==> MadeAt(t, more, |order|, p);
    forall j: nat | j < |order|
      ensures MadeAt(t, more, j, p) <==> MadeAt(t, order, j, p) && !Clears(e, p)
    {
      MadeAtGrows(t, order, e, j, p);
    }
  }

  /** The tree after the entries of `order`, before directory modes are applied. */
  ghost function Rebuilt(t: Tree, order: seq<Path>, rootMode: nat): Tree {
    map p | p in t && Standing(t, order, p) :: RebuiltNode(t, order, rootMode, p)
  }

  ghost function RebuiltNode(t: Tree, order: seq<Path>, rootMode: nat, p: Path): Node
    requires p in t
  {
    if p == [] then Dir(if Wiped(order) then DEFAULT_DIR_MODE else rootMode)
    else if t[p].Dir? then Dir(DEFAULT_DIR_MODE) else Masked(t[p])
  }

  ghost function Recorded(t: Tree, order: seq<Path>): map<Path, nat>
    requires forall p | p in order :: p in t
  {
    map p | p in order && t[p].Dir? && !Hidden(p) :: Perm(t[p].mode)
  }

  lemma DecodeOfEntry(t: Tree, p: Path)
    requires p in t && p != [] && !t[p].Special? && CleanPath(p) && !WhiteoutName(Base(p))
    ensures Decode(EntryOf(t, p)) == if t[p].Dir? then AddDirectory(p, Perm(t[p].mode)) else AddLeaf(p, Masked(t[p]))
  {
    CleanOfRendered(p);
  }

  /** What is there below a directory tree's own path may be directories only. */
  ghost predicate KindsOf(t: Tree, u: Tree) {
    forall p :: p in u ==> p in t && (u[p].Dir? <==> t[p].Dir?)
  }

  lemma RebuiltKinds(t: Tree, order: seq<Path>, rootMode: nat)
    requires HostTree(t)
    ensures KindsOf(t, Rebuilt(t, order, rootMode))
  {
    forall p | p in Rebuilt(t, order, rootMode)
      ensures RebuiltNode(t, order, rootMode, p).Dir? <==> t[p].Dir?
    {
    }
  }

  /** Nothing is in the way of what it was built from. */
  lemma RebuiltIsClear(t: Tree, u: Tree, p: Path)
    requires HostTree(t) && Closed(u) && KindsOf(t, u) && p in t && p != []
    ensures CheckAll(u, [Parent(p)]).Done?
  {
    var up := Parent(p);
    forall k | 1 <= k <= |up| && up[..k] in u
      ensures u[up[..k]].Dir?
    {
      assert up[..k] == p[..k];
      AncestorsAreDirectories(t, p, p[..k]);
    }
    CheckParentsMeaning(u, up);
    OneGuard(u, up);
  }

  lemma OneGuard(u: Tree, g: Path)
    ensures CheckAll(u, [g]) == CheckParents(u, g)
  {
    assert [g][1..] == [];
    assert CheckAll(u, []) == Done;
  }

  function DefaultNode(node: Node): Node {
    if node.Dir? then Dir(DEFAULT_DIR_MODE) else Masked(node)
  }

  /** What one more entry makes of what was rebuilt, path by path. */
  ghost predicate GrowsTo(t: Tree, p: Path, u: Tree, v: Tree) {
    && (forall q :: q in v <==> q in t && (Makes(t, p, q) || (q in u && !Clears(p, q))))
    && (forall q :: q in v && q in u ==> v[q] == u[q])
    && (forall q :: q in v && q !in u ==> v[q] == DefaultNode(t[q]))
  }

  lemma RebuiltNodeGrows(t: Tree, front: seq<Path>, p: Path, rootMode: nat, q: Path)
    requires q in t && ([] in t ==> t[[]].Dir?) && Standing(t, front + [p], q)
    ensures Standing(t, front, q) ==> RebuiltNode(t, front + [p], rootMode, q) == RebuiltNode(t, front, rootMode, q)
    ensures !Standing(t, front, q) ==> RebuiltNode(t, front + [p], rootMode, q) == DefaultNode(t[q])
  {
    StandingGrows(t, front, p, q);
    WipedGrows(front, p);
  }

  lemma RebuiltGrows(t: Tree, front: seq<Path>, p: Path, rootMode: nat)
    requires HostTree(t)
    ensures GrowsTo(t, p, Rebuilt(t, front, rootMode), Rebuilt(t, front + [p], rootMode))
  {
    var u, v := Rebuilt(t, front, rootMode), Rebuilt(t, front + [p], rootMode);
    forall q
      ensures q in v <==> q in t && (Makes(t, p, q) || (q in u && !Clears(p, q)))
      ensures q in v && q in u ==> v[q] == u[q]
      ensures q in v && q !in u ==> v[q] == DefaultNode(t[q])
    {
      StandingGrows(t, front, p, q);
      if q in t && Standing(t, front + [p], q) { RebuiltNodeGrows(t, front, p, rootMode, q); }
    }
  }

  lemma RemovalRebuilds(t: Tree, p: Path, u: Tree, v: Tree)
    requires HostTree(t) && Closed(u) && KindsOf(t, u) && p in t && Hidden(p) && GrowsTo(t, p, u, v)
    ensures var out := Effect(u, DecodeWhiteout(p));
            if DecodeWhiteout(p).Reject? then out.status.Failed? else out == Outcome(v, Done)
  {
    var ev := DecodeWhiteout(p);
    RebuiltIsClear(t, u, p);
    assert Guards(ev) == [Parent(p)];
    forall q
      ensures q in v <==> q in u && !Clears(p, q)
      ensures q in v ==> v[q] == u[q]
    {
    }
    OneGuard(u, Parent(p));
    if ev.Hide? {
      WithoutExactly(u, v, ev.target);
    } else if ev.Empty? {
      EmptiedExactly(u, v, ev.at);
    }
  }

  lemma WithoutExactly(u: Tree, v: Tree, p: Path)
    requires (forall q :: q in v <==> q in u && !(p <= q)) && forall q :: q in v ==> v[q] == u[q]
    ensures Without(u, p) == v
  {
  }

  lemma EmptiedExactly(u: Tree, v: Tree, p: Path)
    requires (forall q :: q in v <==> q in u && !(p < q)) && forall q :: q in v ==> v[q] == u[q]
    ensures Emptied(u, p) == v
  {
  }

  lemma DirectoryRebuilds(t: Tree, p: Path, u: Tree, v: Tree)
    requires HostTree(t) && Closed(u) && KindsOf(t, u) && IsDir(t, p) && p != [] && !Hidden(p) && GrowsTo(t, p, u, v)
    ensures Effect(u, AddDirectory(p, Perm(t[p].mode))) == Outcome(v, Done)
  {
    RebuiltIsClear(t, u, p);
    assert Guards(AddDirectory(p, Perm(t[p].mode))) == [Parent(p)];
    forall q | q <= p
      ensures IsDir(t, q)
    {
      if q != p { AncestorsAreDirectories(t, p, q); }
    }
    PrefixesRebuilt(t, p, u, v);
  }

  lemma PrefixesRebuilt(t: Tree, p: Path, u: Tree, v: Tree)
    requires IsDir(t, p) && !Hidden(p) && KindsOf(t, u) && GrowsTo(t, p, u, v)
    requires forall q | q <= p :: IsDir(t, q)
    ensures WithDirectory(u, p) == v
  {
    var w := WithDirectory(u, p);
    forall q
      ensures q in w <==> q in v
      ensures q in w ==> w[q] == v[q]
    {
      assert q <= p ==> IsDir(t, q);
    }
  }

  lemma LeafRebuilds(t: Tree, p: Path, u: Tree, v: Tree)
    requires HostTree(t) && Closed(u) && KindsOf(t, u) && p in t && !t[p].Dir? && p != [] && !Hidden(p) && p !in u
    requires GrowsTo(t, p, u, v)
    ensures var out := Effect(u, AddLeaf(p, Masked(t[p])));
            if Parent(p) in u then out == Outcome(v, Done) else out.status.Failed?
  {
    RebuiltIsClear(t, u, p);
    assert Guards(AddLeaf(p, Masked(t[p]))) == [Parent(p)];
    ExistingRemoved(u, p);
    assert Up(p) == Parent(p);
    LeafAdded(t, p, u, v);
  }

  lemma LeafAdded(t: Tree, p: Path, u: Tree, v: Tree)
    requires KindsOf(t, u) && p in t && !t[p].Dir? && !Hidden(p) && p !in u && GrowsTo(t, p, u, v)
    ensures v == u[p := Masked(t[p])]
  {
    forall q
      ensures q in v <==> q in u || q == p
    {
      assert Makes(t, p, q) <==> q == p;
    }
  }

  /** A file or symlink stands only once its own entry has come. */
  lemma LeafStandsOnce(t: Tree, front: seq<Path>, p: Path)
    requires Closed(t) && p in t && !t[p].Dir? && p != [] && p !in front && forall q | q in front :: q in t
    ensures !Standing(t, front, p)
  {
    forall j: nat | j < |front|
      ensures !MadeAt(t, front, j, p)
    {
      var e := front[j];
      assert e in front;
      if IsDir(t, e) && p <= e {
        PrefixOrSelf(p, e);
        AncestorsAreDirectories(t, e, p);
      }
    }
  }

  lemma RecordedGrows(t: Tree, order: seq<Path>, p: Path)
    requires p in t && forall q | q in order :: q in t
    ensures Recorded(t, order + [p])
            == if t[p].Dir? && !Hidden(p) then Recorded(t, order)[p := Perm(t[p].mode)] else Recorded(t, order)
  {
    assert forall q :: q in order + [p] <==> q in order || q == p;
  }

  /** One more entry of the walk, if it lands, rebuilds what it should; if not, the unpacking ends there. */
  lemma EntryRebuilds(t: Tree, front: seq<Path>, p: Path, rootMode: nat)
    requires HostTree(t) && Readable(t) && Closed(Rebuilt(t, front, rootMode)) && WalkPrefix(t, front)
    requires p in t && p != [] && !t[p].Special? && p !in front
    ensures var next := Step(State(Rebuilt(t, front, rootMode), Recorded(t, front), Done), EntryOf(t, p));
            if Lands(t, front, p) then next == State(Rebuilt(t, front + [p], rootMode), Recorded(t, front + [p]), Done)
            else next.status.Failed?
  {
    var u, v := Rebuilt(t, front, rootMode), Rebuilt(t, front + [p], rootMode);
    ReadablePaths(t, p);
    RecordedGrows(t, front, p);
    RebuiltKinds(t, front, rootMode);
    RebuiltGrows(t, front, p, rootMode);
    EntryOutcome(t, front, p, u, v);
    var out := Effect(u, Decode(EntryOf(t, p)));
    StepOutcome(u, Recorded(t, front), EntryOf(t, p), out.tree, out.status);
  }

  lemma EntryOutcome(t: Tree, front: seq<Path>, p: Path, u: Tree, v: Tree)
    requires HostTree(t) && Closed(u) && KindsOf(t, u) && GrowsTo(t, p, u, v) && WalkPrefix(t, front)
    requires p in t && p != [] && !t[p].Special? && CleanPath(p) && (Hidden(p) ==> t[p].Dir?) && p !in front
    requires forall q :: q in u <==> q in t && Standing(t, front, q)
    ensures var ev := Decode(EntryOf(t, p));
            && (Lands(t, front, p) ==> Effect(u, ev) == Outcome(v, Done))
            && (!Lands(t, front, p) ==> Effect(u, ev).status.Failed?)
            && (ev.AddDirectory? <==> t[p].Dir? && !Hidden(p))
            && (ev.AddDirectory? ==> ev == AddDirectory(p, Perm(t[p].mode)))
  {
    if Hidden(p) {
      HiddenEntry(t, p);
      RemovalRebuilds(t, p, u, v);
    } else {
      DecodeOfEntry(t, p);
      if t[p].Dir? {
        DirectoryRebuilds(t, p, u, v);
      } else {
        LeafStandsOnce(t, front, p);
        assert IsDir(t, Parent(p)) && Up(p) == Parent(p);
        LeafRebuilds(t, p, u, v);
      }
    }
  }

  lemma HiddenEntry(t: Tree, p: Path)
    requires p in t && p != [] && !t[p].Special? && CleanPath(p) && Hidden(p)
    ensures Decode(EntryOf(t, p)) == DecodeWhiteout(p) && !Decode(EntryOf(t, p)).AddDirectory?
  {
    CleanOfRendered(p);
  }

  /** Replaying `order` rebuilds exactly what is then standing, if every entry lands, and fails if one does not. */
  ghost predicate RebuiltBy(t: Tree, order: seq<Path>, rootMode: nat)
    requires WalkPrefix(t, order)
  {
    var r := Replay(State(Fresh(rootMode), map[], Done), Stream(t, order));
    if AllEntriesLand(t, order) then r == State(Rebuilt(t, order, rootMode), Recorded(t, order), Done)
      else r.status.Failed?
  }

  lemma OneMoreRebuilt(t: Tree, front: seq<Path>, p: Path, rootMode: nat)
    requires HostTree(t) && Readable(t) && WalkPrefix(t, front) && WalkPrefix(t, front + [p])
             && RebuiltBy(t, front, rootMode)
    ensures RebuiltBy(t, front + [p], rootMode)
  {
    FrontOfWalk(t, front, p);
    LandingGrows(t, front, p);
    OneMoreEntry(t, front, p, rootMode);
    if AllEntriesLand(t, front) { NextEntryRebuilds(t, front, p, rootMode); }
  }

  lemma NextEntryRebuilds(t: Tree, front: seq<Path>, p: Path, rootMode: nat)
    requires HostTree(t) && Readable(t) && WalkPrefix(t, front) && RebuiltBy(t, front, rootMode)
             && AllEntriesLand(t, front)
    requires p in t && p != [] && !t[p].Special? && p !in front
    ensures var next := Step(State(Rebuilt(t, front, rootMode), Recorded(t, front), Done), EntryOf(t, p));
            if Lands(t, front, p) then next == State(Rebuilt(t, front + [p], rootMode), Recorded(t, front + [p]), Done)
            else next.status.Failed?
  {
    ReplayKeepsClosed(State(Fresh(rootMode), map[], Done), Stream(t, front));
    EntryRebuilds(t, front, p, rootMode);
  }

  /** So for any beginning of a walk. */
  lemma {:induction false} ReplayRebuilds(t: Tree, order: seq<Path>, rootMode: nat)
    requires HostTree(t) && Readable(t) && WalkPrefix(t, order)
    ensures RebuiltBy(t, order, rootMode)
    decreases |order|
  {
    if order == [] {
      NothingRebuilt(t, rootMode);
    } else {
      var front, p := order[..|order| - 1], order[|order| - 1];
      assert order == front + [p];
      FrontOfWalk(t, front, p);
      ReplayRebuilds(t, front, rootMode);
      OneMoreRebuilt(t, front, p, rootMode);
    }
  }

  lemma OneMoreEntry(t: Tree, front: seq<Path>, p: Path, rootMode: nat)
    requires WalkPrefix(t, front + [p]) && WalkPrefix(t, front) && p in t && !t[p].Special?
    ensures var s := State(Fresh(rootMode), map[], Done);
            var before := Replay(s, Stream(t, front));
            Replay(s, Stream(t, front + [p])) == if before.status.Failed? then before else Step(before, EntryOf(t, p))
  {
    var es := Stream(t, front + [p]);
    assert (front + [p])[..|front|] == front;
    assert es == Stream(t, front) + [EntryOf(t, p)];
    assert es[..|es| - 1] == Stream(t, front);
  }

  lemma NothingRebuilt(t: Tree, rootMode: nat)
    requires [] in t
    ensures Rebuilt(t, [], rootMode) == Fresh(rootMode) && Recorded(t, []) == map[]
  {
    assert !Wiped([]);
  }

  lemma FrontOfWalk(t: Tree, front: seq<Path>, p: Path)
    requires WalkPrefix(t, front + [p])
    ensures WalkPrefix(t, front) && p in t && p != [] && !t[p].Special? && p !in front
  {
    var order := front + [p];
    assert order[|front|] == p;
    forall i | 0 <= i < |front|
      ensures front[i] == order[i] && front[..i] == order[..i] && front[i] != p
    {
      assert order[i] != order[|front|];
    }
  }

  lemma LandingGrows(t: Tree, front: seq<Path>, p: Path)
    ensures AllEntriesLand(t, front + [p]) <==> AllEntriesLand(t, front) && Lands(t, front, p)
  {
    var order := front + [p];
    assert order[|front|] == p && order[..|front|] == front;
    forall i | 0 <= i < |front|
      ensures front[i] == order[i] && front[..i] == order[..i]
    {
    }
  }

  /** Nothing rebuilt stands where a directory's mode is to be set. */
  lemma RebuiltIsBenign(t: Tree, order: seq<Path>, rootMode: nat)
    requires HostTree(t) && WalkPrefix(t, order)
    ensures Benign(Rebuilt(t, order, rootMode), Recorded(t, order))
  {
    var u := Rebuilt(t, order, rootMode);
    forall p | p in Recorded(t, order)
      ensures Plainly(u, p)
    {
      forall k | 0 <= k < |p| && p[..k] in u
        ensures u[p[..k]].Dir?
      {
        AncestorsAreDirectories(t, p, p[..k]);
      }
    }
  }

  /** Settling what was rebuilt gives the packed tree exactly when it was rebuilt whole. */
  lemma SettledExactly(t: Tree, order: seq<Path>, rootMode: nat)
    requires HostTree(t) && Walk(t, order)
    ensures Settle(Rebuilt(t, order, rootMode), Recorded(t, order)) == Repacked(t, rootMode)
            <==> (forall p | p in t :: Standing(t, order, p))
                 && (forall p | p in t && Hidden(p) && t[p].Dir? :: Masked(t[p]) == Dir(DEFAULT_DIR_MODE))
                 && (Wiped(order) ==> rootMode == DEFAULT_DIR_MODE)
  {
    var u := Settle(Rebuilt(t, order, rootMode), Recorded(t, order));
    forall p
      ensures p in u <==> p in t && Standing(t, order, p)
      ensures p in u ==> u[p] == SettledNode(t, order, rootMode, p)
    {
      if p in u { SettledAt(t, order, rootMode, p); }
    }
    WholeExactly(t, order, rootMode, u);
  }

  lemma SettledAt(t: Tree, order: seq<Path>, rootMode: nat, p: Path)
    requires HostTree(t) && Walk(t, order) && p in t && Standing(t, order, p)
    ensures Settle(Rebuilt(t, order, rootMode), Recorded(t, order))[p] == SettledNode(t, order, rootMode, p)
  {
    assert p != [] ==> p in order;
    assert p == [] ==> p !in order;
  }

  ghost function SettledNode(t: Tree, order: seq<Path>, rootMode: nat, p: Path): Node
    requires p in t
  {
    if p == [] then Dir(if Wiped(order) then DEFAULT_DIR_MODE else rootMode)
    else if t[p].Dir? && Hidden(p) then Dir(DEFAULT_DIR_MODE) else Masked(t[p])
  }

  lemma WholeExactly(t: Tree, order: seq<Path>, rootMode: nat, u: Tree)
    requires [] in t && forall p :: p in u <==> p in t && Standing(t, order, p)
    requires forall p | p in u :: u[p] == SettledNode(t, order, rootMode, p)
    ensures u == Repacked(t, rootMode)
            <==> (forall p | p in t :: Standing(t, order, p))
                 && (forall p | p in t && Hidden(p) && t[p].Dir? :: Masked(t[p]) == Dir(DEFAULT_DIR_MODE))
                 && (Wiped(order) ==> rootMode == DEFAULT_DIR_MODE)
  {
    var v := Repacked(t, rootMode);
    assert v.Keys == t.Keys;
    if u == v {
      forall p | p in t
        ensures Standing(t, order, p) && SettledNode(t, order, rootMode, p) == v[p]
      {
        assert p in u;
      }
    }
  }

  /** With permission-only modes, what comes back is the very tree that went in. */
  lemma PermissionOnlyTreesComeBack(t: Tree)
    requires HostTree(t) && (forall p | p in t && !t[p].Symlink? && !t[p].Special? :: t[p].mode < 0x200)
    ensures Repacked(t, t[[]].mode) == t
  {
    var r := Repacked(t, t[[]].mode);
    assert r.Keys == t.Keys;
    forall p | p in t
      ensures r[p] == t[p]
    {
      MaskOfPermissionOnly(t[p]);
    }
    assert r == t;
  }

  lemma MaskOfPermissionOnly(node: Node)
    ensures node.Symlink? || node.Special? || node.mode < 0x200 ==> Masked(node) == node
  {
  }

  /** What holds of everything an unpacker can have put under a fresh root. */
  ghost predicate Unpackable(t: Tree) {
    && (forall p | p in t :: CleanPath(p))
    && (forall p | p in t && !t[p].Dir? :: p != [] && !WhiteoutName(Base(p)))
  }

  lemma EffectKeepsUnpackable(t: Tree, ev: Event)
    requires Unpackable(t) && CleanEvent(ev)
    ensures Unpackable(Effect(t, ev).tree)
  {
    forall p | p in Effect(t, ev).tree && p !in t
      ensures CleanPath(p)
    {
      var at := match ev case AddDirectory(at, _) => at case AddLeaf(at, _) => at case AddLink(at, _) => at case _ =>
          [];
      assert p <= at;
      forall i | 0 <= i < |p|
        ensures PlainName(p[i])
      {
        assert PlainName(at[i]);
      }
    }
  }

  lemma {:induction false} ReplayKeepsUnpackable(s: State, es: seq<Entry>)
    requires Unpackable(s.tree)
    ensures Unpackable(Replay(s, es).tree)
    decreases |es|
  {
    if es != [] {
      ReplayKeepsUnpackable(s, es[..|es| - 1]);
      DecodeIsClean(es[|es| - 1]);
      EffectKeepsUnpackable(Replay(s, es[..|es| - 1]).tree, Decode(es[|es| - 1]));
    }
  }

  lemma SameShapeUnpackable(t: Tree, u: Tree)
    requires OnlyModes(t, u) && Unpackable(t)
    ensures Unpackable(u)
  {
    forall p | p in u
      ensures CleanPath(p) && (!u[p].Dir? ==> p != [] && !WhiteoutName(Base(p)))
    {
      SameKind(u[p], t[p]);
    }
  }

  lemma UnpackableIsReadable(t: Tree, rootMode: nat)
    requires Unpackable(Repacked(t, rootMode))
    ensures Readable(t)
  {
    var u := Repacked(t, rootMode);
    forall p | p in t && p != []
      ensures PlainName(Base(p)) && (Hidden(p) ==> t[p].Dir?)
    {
      assert p in u && CleanPath(p);
    }
  }

  lemma UnpackedIsUnpackable(es: seq<Entry>, rootMode: nat, follow: Follow, result: Phase)
    requires LayerApplied(Fresh(rootMode), es, follow, result) && Searchable(rootMode)
    ensures Unpackable(result.tree)
  {
    var s := State(Fresh(rootMode), map[], Done);
    FreshIsSearchable(rootMode);
    LayerExactly(Fresh(rootMode), es, follow, result);
    ReplayKeepsUnpackable(s, es);
    if Replay(s, es).status.Done? { SameShapeUnpackable(Replay(s, es).tree, result.tree); }
  }

  lemma ComesBackReadable(t: Tree, order: seq<Path>, rootMode: nat, follow: Follow, result: Phase)
    requires WalkPrefix(t, order) && LayerApplied(Fresh(rootMode), Stream(t, order), follow, result)
    requires Searchable(rootMode) && result.tree == Repacked(t, rootMode)
    ensures Readable(t)
  {
    UnpackedIsUnpackable(Stream(t, order), rootMode, follow, result);
    UnpackableIsReadable(t, rootMode);
  }

  lemma FreshIsSearchable(rootMode: nat)
    requires Searchable(rootMode)
    ensures AllSearchable(Fresh(rootMode)) && Closed(Fresh(rootMode))
  {
  }

  /** The round trip, exactly: whatever order the walk takes, unpacking what was packed restores the tree, permission
      bits and all and only the root's own mode the unpacker's, if and only if tree and order are such that it comes
      back; and then no mode is set through a symlink. */
  lemma RoundTripsExactly(t: Tree, order: seq<Path>, rootMode: nat, follow: Follow, result: Phase)
    requires HostTree(t) && Walk(t, order) && Searchable(rootMode)
    requires LayerApplied(Fresh(rootMode), Stream(t, order), follow, result)
    ensures result.status.Done? && result.tree == Repacked(t, rootMode) <==> ComesBack(t, order, rootMode)
    ensures ComesBack(t, order, rootMode) ==> result == Phase(Repacked(t, rootMode), [], Done)
  {
    FreshIsSearchable(rootMode);
    LayerExactly(Fresh(rootMode), Stream(t, order), follow, result);
    if result.status.Done? && result.tree == Repacked(t, rootMode) {
      ComesBackReadable(t, order, rootMode, follow, result);
    }
    if Readable(t) {
      ReplayRebuilds(t, order, rootMode);
      RebuiltIsBenign(t, order, rootMode);
      SettledExactly(t, order, rootMode);
    }
  }

  lemma OrdinaryClearsNothing(t: Tree, order: seq<Path>)
    requires Ordinary(t) && WalkPrefix(t, order)
    ensures !Wiped(order) && forall i, p :: 0 <= i < |order| ==> !Clears(order[i], p)
  {
  }

  lemma OrdinaryStands(t: Tree, order: seq<Path>, p: Path)
    requires Ordinary(t) && WalkPrefix(t, order) && (p == [] || p in order)
    ensures Standing(t, order, p)
  {
    OrdinaryClearsNothing(t, order);
    if p != [] {
      var j: nat :| j < |order| && order[j] == p;
      assert MadeAt(t, order, j, p);
    }
  }

  lemma WalkStart(t: Tree, order: seq<Path>, i: nat)
    requires WalkPrefix(t, order) && i <= |order|
    ensures WalkPrefix(t, order[..i])
  {
    var front := order[..i];
    forall k | 0 <= k < i
      ensures front[k] == order[k] && front[..k] == order[..k]
    {
    }
  }

  lemma OrdinaryComesBack(t: Tree, order: seq<Path>, rootMode: nat)
    requires HostTree(t) && Walk(t, order) && Ordinary(t)
    ensures ComesBack(t, order, rootMode)
  {
    OrdinaryClearsNothing(t, order);
    forall p | p in t
      ensures Standing(t, order, p)
    {
      OrdinaryStands(t, order, p);
    }
    forall i | 0 <= i < |order|
      ensures Lands(t, order[..i], order[i])
    {
      WalkStart(t, order, i);
      OrdinaryStands(t, order[..i], Parent(order[i]));
    }
  }

  /** Trees with ordinary names come back, for every order in which parents come before their children. */
  lemma PackedTreeUnpacks(t: Tree, order: seq<Path>, rootMode: nat, follow: Follow, result: Phase)
    requires HostTree(t) && Walk(t, order) && Ordinary(t) && Searchable(rootMode)
    requires LayerApplied(Fresh(rootMode), Stream(t, order), follow, result)
    ensures result == Phase(Repacked(t, rootMode), [], Done)
  {
    OrdinaryComesBack(t, order, rootMode);
    RoundTripsExactly(t, order, rootMode, follow, result);
  }

  /** A directory with a whiteout name comes back only for the sake of a directory in it. */
  lemma HiddenNeedsDirectory(t: Tree, order: seq<Path>, p: Path)
    requires HostTree(t) && Walk(t, order) && p in t && Hidden(p) && Standing(t, order, p)
    ensures exists n :: IsDir(t, p + [n])
  {
    var j: nat :| MadeAt(t, order, j, p);
    PrefixOrSelf(p, order[j]);
    ChildToward(t, p, order[j]);
  }

  lemma ChildToward(t: Tree, p: Path, e: Path)
    requires Closed(t) && IsDir(t, e) && p < e
    ensures IsDir(t, p + [e[|p|]])
  {
    var child := e[..|p| + 1];
    assert child == p + [e[|p|]];
    if child != e { AncestorsAreDirectories(t, e, child); }
  }
}
