/** What a whole layer means: OCI image-spec layer.md, "Applying Changesets" and "Whiteouts", against the one-pass
    replay. */
module Changeset {
  import opened Text
  import opened Paths
  import opened FileTree
  import opened Layers
  import opened Modes
  import opened RootFilesystem

  function Events(es: seq<Entry>): (evs: seq<Event>)
    ensures |evs| == |es|
    decreases |es|
  {
    if es == [] then [] else Events(es[..|es| - 1]) + [Decode(es[|es| - 1])]
  }

  /** What one event does to the node at `p`, given only the node that was there. */
  function Touch(ev: Event, p: Path, prev: Option<Node>): Option<Node> {
    match ev
    case Hide(_, target) => if target <= p then None else prev
    case Empty(at) => if at < p then None else prev
    case AddDirectory(at, _) => if p <= at && !(prev.Some? && prev.value.Dir?) then Some(Dir(DEFAULT_DIR_MODE))
      else prev
    case AddLeaf(at, node) => if p == at then Some(node) else if at < p then None else prev
    case AddLink(at, _) => if at < p then None else prev
    case _ => prev
  }

  function TouchAll(evs: seq<Event>, p: Path, prev: Option<Node>): Option<Node>
    decreases |evs|
  {
    if evs == [] then prev
    else Touch(evs[|evs| - 1], p, TouchAll(evs[..|evs| - 1], p, prev))
  }

  /** The last mode asked for a directory entry at `p`. */
  function TouchMode(evs: seq<Event>, p: Path, prev: Option<nat>): Option<nat>
    decreases |evs|
  {
    if evs == [] then prev
    else
      var ev := evs[|evs| - 1];
      if ev.AddDirectory? && ev.at == p then Some(ev.mode) else TouchMode(evs[..|evs| - 1], p, prev)
  }

  function RecordedMode(modes: map<Path, nat>, p: Path): Option<nat> {
    if p in modes then Some(modes[p]) else None
  }

  /** What the last entries touching `p` leave there, over the tree `lower`; a hard link leaves what its source held
      when it was made. */
  function Left(lower: Tree, evs: seq<Event>, p: Path): Option<Node>
    decreases |evs|
  {
    if evs == [] then Lookup(lower, p)
    else
      var front, ev := evs[..|evs| - 1], evs[|evs| - 1];
      if ev.AddLink? && ev.at == p then Left(lower, front, ev.source) else Touch(ev, p, Left(lower, front, p))
  }

  lemma EffectIsPointwise(t: Tree, ev: Event, p: Path)
    requires Effect(t, ev).status.Done?
    ensures Lookup(Effect(t, ev).tree, p)
            == if ev.AddLink? && ev.at == p then Lookup(t, ev.source) else Touch(ev, p, Lookup(t, p))
  {
  }

  /** A stream that goes through gives every path what the last entries touching it left there. */
  lemma {:induction false} ReplayIsPointwise(s: State, es: seq<Entry>, p: Path)
    requires Replay(s, es).status.Done?
    ensures Lookup(Replay(s, es).tree, p) == Left(s.tree, Events(es), p)
    ensures RecordedMode(Replay(s, es).modes, p) == TouchMode(Events(es), p, RecordedMode(s.modes, p))
    decreases |es|
  {
    if es != [] {
      var front, ev := es[..|es| - 1], Decode(es[|es| - 1]);
      assert Events(es)[..|es| - 1] == Events(front) && Events(es)[|es| - 1] == ev;
      ReplayIsPointwise(s, front, p);
      if ev.AddLink? { ReplayIsPointwise(s, front, ev.source); }
      EffectIsPointwise(Replay(s, front).tree, ev, p);
    }
  }

  predicate NoLinks(evs: seq<Event>) {
    forall i :: 0 <= i < |evs| ==> !evs[i].AddLink?
  }

  /** Without hard links every path has a history of its own. */
  lemma {:induction false} LeftWithoutLinks(lower: Tree, evs: seq<Event>, p: Path)
    requires NoLinks(evs)
    ensures Left(lower, evs, p) == TouchAll(evs, p, Lookup(lower, p))
    decreases |evs|
  {
    if evs != [] {
      LeftWithoutLinks(lower, evs[..|evs| - 1], p);
    }
  }

  predicate IsWhiteout(ev: Event) {
    ev.Hide? || ev.Empty?
  }

  predicate IsAddition(ev: Event) {
    ev.AddDirectory? || ev.AddLeaf?
  }

  predicate Whiteouts(evs: seq<Event>) {
    forall i :: 0 <= i < |evs| ==> IsWhiteout(evs[i])
  }

  /** No path is added twice, and nothing is added below an added file or symlink. */
  predicate CompatibleAdditions(a: Event, b: Event)
    requires IsAddition(a) && IsAddition(b)
  {
    a.at != b.at && (a.AddLeaf? ==> !(a.at < b.at)) && (b.AddLeaf? ==> !(b.at < a.at))
  }

  ghost predicate Additions(evs: seq<Event>) {
    && (forall i :: 0 <= i < |evs| ==> IsAddition(evs[i]))
    && (forall i, j :: 0 <= i < j < |evs| ==> CompatibleAdditions(evs[i], evs[j]))
  }

  ghost predicate Hides(ev: Event, p: Path) {
    (ev.Hide? && ev.target <= p) || (ev.Empty? && ev.at < p)
  }

  /** The lower tree as the whiteouts of a layer leave it. */
  ghost function Uncovered(lower: Tree, whiteouts: seq<Event>, p: Path): Option<Node> {
    if exists ev | ev in whiteouts :: Hides(ev, p) then None else Lookup(lower, p)
  }

  ghost predicate AddsAt(ev: Event, p: Path) {
    IsAddition(ev) && ev.at == p
  }

  ghost predicate LeafAbove(ev: Event, p: Path) {
    ev.AddLeaf? && ev.at < p
  }

  ghost predicate DirectoryUnder(ev: Event, p: Path) {
    ev.AddDirectory? && p < ev.at
  }

  /** An added node; a directory keeps what lies under when that is a directory already. */
  ghost function Placed(ev: Event, under: Option<Node>): Node
    requires IsAddition(ev)
  {
    if ev.AddLeaf? then ev.node
    else if under.Some? && under.value.Dir? then under.value
    else Dir(DEFAULT_DIR_MODE)
  }

  /** The overlay before directory modes: the added entry; else nothing below a replaced non-directory; else a
      directory implied by one added below; else what lies under. */
  ghost function Laid(additions: seq<Event>, p: Path, under: Option<Node>): Option<Node> {
    if ev :| ev in additions && AddsAt(ev, p) then Some(Placed(ev, under))
    else if exists ev | ev in additions :: LeafAbove(ev, p) then None
    else if (exists ev | ev in additions :: DirectoryUnder(ev, p)) && !(under.Some? && under.value.Dir?)
    then Some(Dir(DEFAULT_DIR_MODE))
    else under
  }

  ghost function Overlay(lower: Tree, whiteouts: seq<Event>, additions: seq<Event>, p: Path): Option<Node> {
    Laid(additions, p, Uncovered(lower, whiteouts, p))
  }

  /** The overlay with the modes of the layer's directory entries. */
  ghost function Merged(lower: Tree, whiteouts: seq<Event>, additions: seq<Event>, p: Path): Option<Node> {
    if ev :| ev in additions && AddsAt(ev, p) && ev.AddDirectory? then Some(Dir(ev.mode))
    else Overlay(lower, whiteouts, additions, p)
  }

  lemma {:induction false} TouchAllConcat(es: seq<Event>, fs: seq<Event>, p: Path, prev: Option<Node>)
    ensures TouchAll(es + fs, p, prev) == TouchAll(fs, p, TouchAll(es, p, prev))
    decreases |fs|
  {
    if fs == [] {
      assert es + fs == es;
    } else {
      TouchAllConcat(es, fs[..|fs| - 1], p, prev);
      assert (es + fs)[..|es + fs| - 1] == es + fs[..|fs| - 1];
    }
  }

  lemma {:induction false} WhiteoutsUncover(lower: Tree, whiteouts: seq<Event>, p: Path)
    requires Whiteouts(whiteouts)
    ensures TouchAll(whiteouts, p, Lookup(lower, p)) == Uncovered(lower, whiteouts, p)
    decreases |whiteouts|
  {
    if whiteouts != [] {
      var front, ev := whiteouts[..|whiteouts| - 1], whiteouts[|whiteouts| - 1];
      assert whiteouts == front + [ev];
      WhiteoutsUncover(lower, front, p);
      assert ev in whiteouts && forall e :: e in whiteouts <==> e in front || e == ev;
      assert (exists e | e in whiteouts :: Hides(e, p)) <==> (exists e | e in front :: Hides(e, p)) || Hides(ev, p);
    }
  }

  lemma AdditionsFront(front: seq<Event>, e: Event)
    requires Additions(front + [e])
    ensures Additions(front) && IsAddition(e)
    ensures forall ev | ev in front :: IsAddition(ev) && CompatibleAdditions(ev, e)
  {
    var all := front + [e];
    assert all[|front|] == e;
    assert forall i :: 0 <= i < |front| ==> all[i] == front[i];
    forall i, j | 0 <= i < j < |front|
      ensures CompatibleAdditions(front[i], front[j])
    {
      assert CompatibleAdditions(all[i], all[j]);
    }
  }

  lemma LaidGrows(front: seq<Event>, e: Event, p: Path, under: Option<Node>)
    requires Additions(front + [e])
    ensures Laid(front + [e], p, under) == Touch(e, p, Laid(front, p, under))
  {
    AdditionsFront(front, e);
    var all := front + [e];
    assert forall ev :: ev in all <==> ev in front || ev == e;
    if ev :| ev in front && AddsAt(ev, p) {
      AddedOnce(front, ev, p);
      AddedOnce(all, ev, p);
    } else if e.at == p {
      AddedOnce(all, e, p);
    }
  }

  lemma OnePlaceEach(a: Event, b: Event, p: Path)
    requires IsAddition(a) && IsAddition(b) && AddsAt(a, p) && AddsAt(b, p)
    ensures !CompatibleAdditions(a, b)
  {
  }

  lemma AddedOnce(additions: seq<Event>, ev: Event, p: Path)
    requires Additions(additions) && ev in additions && AddsAt(ev, p)
    ensures forall other | other in additions && AddsAt(other, p) :: other == ev
  {
    forall other | other in additions && AddsAt(other, p)
      ensures other == ev
    {
      var i :| 0 <= i < |additions| && additions[i] == ev;
      var j :| 0 <= j < |additions| && additions[j] == other;
      OnePlaceEach(ev, other, p);
      OnePlaceEach(other, ev, p);
      assert i == j;
    }
  }

  lemma {:induction false} AdditionsLay(additions: seq<Event>, p: Path, under: Option<Node>)
    requires Additions(additions)
    ensures TouchAll(additions, p, under) == Laid(additions, p, under)
    decreases |additions|
  {
    if additions != [] {
      var front, e := additions[..|additions| - 1], additions[|additions| - 1];
      assert additions == front + [e];
      AdditionsFront(front, e);
      AdditionsLay(front, p, under);
      LaidGrows(front, e, p, under);
    }
  }

  /** A layer: whiteouts, then coherent additions. */
  ghost predicate Layer(es: seq<Entry>, whiteouts: seq<Event>, additions: seq<Event>) {
    Events(es) == whiteouts + additions && Whiteouts(whiteouts) && Additions(additions)
  }

  lemma LayerHasNoLinks(es: seq<Entry>, whiteouts: seq<Event>, additions: seq<Event>)
    requires Layer(es, whiteouts, additions)
    ensures NoLinks(Events(es))
  {
    forall i | 0 <= i < |es|
      ensures !Events(es)[i].AddLink?
    {
      assert i < |whiteouts| ==> IsWhiteout(whiteouts[i]);
      assert i >= |whiteouts| ==> IsAddition(additions[i - |whiteouts|]);
    }
  }

  lemma ReplayIsOverlay(lower: Tree, es: seq<Entry>, whiteouts: seq<Event>, additions: seq<Event>, p: Path)
    requires Layer(es, whiteouts, additions) && Replay(State(lower, map[], Done), es).status.Done?
    ensures Lookup(Replay(State(lower, map[], Done), es).tree, p) == Overlay(lower, whiteouts, additions, p)
  {
    LayerHasNoLinks(es, whiteouts, additions);
    ReplayIsPointwise(State(lower, map[], Done), es, p);
    LeftWithoutLinks(lower, Events(es), p);
    TouchAllConcat(whiteouts, additions, p, Lookup(lower, p));
    WhiteoutsUncover(lower, whiteouts, p);
    AdditionsLay(additions, p, Uncovered(lower, whiteouts, p));
  }

  lemma {:induction false} ModeOfLayer(evs: seq<Event>, p: Path)
    requires forall i :: 0 <= i < |evs| ==> IsWhiteout(evs[i]) || IsAddition(evs[i])
    ensures TouchMode(evs, p, None).None? ==> forall ev | ev in evs :: !(ev.AddDirectory? && ev.at == p)
    ensures TouchMode(evs, p, None).Some? ==> AddDirectory(p, TouchMode(evs, p, None).value) in evs
    decreases |evs|
  {
    if evs != [] {
      var front, e := evs[..|evs| - 1], evs[|evs| - 1];
      assert evs == front + [e];
      ModeOfLayer(front, p);
    }
  }

  /** The modes the replay of a layer recorded are those of its directory entries. */
  lemma LayerModes(lower: Tree, es: seq<Entry>, whiteouts: seq<Event>, additions: seq<Event>, p: Path)
    requires Layer(es, whiteouts, additions) && Replay(State(lower, map[], Done), es).status.Done?
    ensures var modes := Replay(State(lower, map[], Done), es).modes;
            && (p in modes ==> AddDirectory(p, modes[p]) in additions)
            && (p !in modes ==> forall ev | ev in additions :: !(ev.AddDirectory? && ev.at == p))
  {
    ReplayIsPointwise(State(lower, map[], Done), es, p);
    forall i | 0 <= i < |es|
      ensures IsWhiteout(Events(es)[i]) || IsAddition(Events(es)[i])
    {
      assert i < |whiteouts| ==> IsWhiteout(whiteouts[i]);
      assert i >= |whiteouts| ==> IsAddition(additions[i - |whiteouts|]);
    }
    ModeOfLayer(Events(es), p);
    assert forall ev :: ev in Events(es) <==> ev in whiteouts || ev in additions;
    assert forall ev | ev in whiteouts :: IsWhiteout(ev);
  }

  /** A directory a layer adds is one in the overlay. */
  lemma AddedDirectoryStays(lower: Tree, whiteouts: seq<Event>, additions: seq<Event>, ev: Event)
    requires Additions(additions) && ev in additions && ev.AddDirectory?
    ensures Overlay(lower, whiteouts, additions, ev.at).Some?
    ensures Overlay(lower, whiteouts, additions, ev.at).value.Dir?
  {
    assert AddsAt(ev, ev.at);
    AddedOnce(additions, ev, ev.at);
  }

  /** Changeset semantics: a layer that goes through leaves, at every path, the merge of the lower tree with the
      layer as the image specification describes it, and no mode is set through a symlink. */
  lemma LayerIsMerge(lower: Tree, es: seq<Entry>, whiteouts: seq<Event>, additions: seq<Event>, follow: Follow,
                     result: Phase, p: Path)
    requires Closed(lower) && AllSearchable(lower) && Layer(es, whiteouts, additions)
    requires LayerApplied(lower, es, follow, result)
    ensures result.escapes == [] && (result.status.Done? <==> Replay(State(lower, map[], Done), es).status.Done?)
    ensures result.status.Done? ==> Lookup(result.tree, p) == Merged(lower, whiteouts, additions, p)
  {
    var r := Replay(State(lower, map[], Done), es);
    LayerExactly(lower, es, follow, result);
    if r.status.Done? {
      LayerIsBenign(lower, es, whiteouts, additions);
      ReplayIsOverlay(lower, es, whiteouts, additions, p);
      LayerModes(lower, es, whiteouts, additions, p);
      if p in r.modes {
        var ev := AddDirectory(p, r.modes[p]);
        assert ev in additions && AddsAt(ev, p);
        AddedOnce(additions, ev, p);
      }
    }
  }

  /** A layer puts nothing in the place of its own directories. */
  lemma LayerIsBenign(lower: Tree, es: seq<Entry>, whiteouts: seq<Event>, additions: seq<Event>)
    requires Closed(lower) && Layer(es, whiteouts, additions) && Replay(State(lower, map[], Done), es).status.Done?
    ensures var r := Replay(State(lower, map[], Done), es);
            Benign(r.tree, r.modes) && forall q :: q in r.modes ==> IsDir(r.tree, q)
  {
    var r := Replay(State(lower, map[], Done), es);
    ReplayKeepsClosed(State(lower, map[], Done), es);
    forall q | q in r.modes
      ensures IsDir(r.tree, q) && Plainly(r.tree, q)
    {
      LayerModes(lower, es, whiteouts, additions, q);
      AddedDirectoryStays(lower, whiteouts, additions, AddDirectory(q, r.modes[q]));
      ReplayIsOverlay(lower, es, whiteouts, additions, q);
      NodesAreReached(r.tree, q);
    }
  }

  /** The stream names `p` as a directory whose mode is to be set. */
  ghost predicate Recorded(evs: seq<Event>, p: Path) {
    TouchMode(evs, p, None).Some?
  }

  predicate IsLink(node: Option<Node>) {
    node.Some? && node.value.Symlink?
  }

  /** Neither a directory nor a symlink. */
  predicate IsPlug(node: Option<Node>) {
    node.Some? && !node.value.Dir? && !node.value.Symlink?
  }

  /** The stream leaves a symlink at `p` or above it. */
  ghost predicate SymlinkLeft(lower: Tree, evs: seq<Event>, p: Path) {
    exists k :: 0 <= k <= |p| && IsLink(Left(lower, evs, p[..k]))
  }

  /** The stream leaves something above `p` that is neither a directory nor a symlink. */
  ghost predicate PlugLeft(lower: Tree, evs: seq<Event>, p: Path) {
    exists k :: 0 <= k < |p| && IsPlug(Left(lower, evs, p[..k]))
  }

  lemma LeftOnTheWay(t: Tree, lower: Tree, evs: seq<Event>, p: Path)
    requires forall k | 0 <= k <= |p| :: Lookup(t, p[..k]) == Left(lower, evs, p[..k])
    ensures Through(t, p) <==> SymlinkLeft(lower, evs, p)
    ensures Blocked(t, p) <==> PlugLeft(lower, evs, p)
  {
    assert p[..|p|] == p;
    assert Through(t, p) <==> exists k :: 0 <= k <= |p| && IsLink(Lookup(t, p[..k]));
    assert Blocked(t, p) <==> exists k :: 0 <= k < |p| && IsPlug(Lookup(t, p[..k]));
  }

  lemma LeftIsThere(lower: Tree, es: seq<Entry>, p: Path)
    requires Replay(State(lower, map[], Done), es).status.Done?
    ensures var r := Replay(State(lower, map[], Done), es);
            && (p in r.modes <==> Recorded(Events(es), p))
            && (Through(r.tree, p) <==> SymlinkLeft(lower, Events(es), p))
            && (Blocked(r.tree, p) <==> PlugLeft(lower, Events(es), p))
  {
    var s := State(lower, map[], Done);
    ReplayIsPointwise(s, es, p);
    forall k | 0 <= k <= |p|
      ensures Lookup(Replay(s, es).tree, p[..k]) == Left(lower, Events(es), p[..k])
    {
      ReplayIsPointwise(s, es, p[..k]);
    }
    LeftOnTheWay(Replay(s, es).tree, lower, Events(es), p);
  }

  ghost predicate SomeSymlinkLeft(lower: Tree, evs: seq<Event>) {
    exists p :: Recorded(evs, p) && SymlinkLeft(lower, evs, p)
  }

  ghost predicate SomePlugLeft(lower: Tree, evs: seq<Event>) {
    exists p :: Recorded(evs, p) && PlugLeft(lower, evs, p) && !SymlinkLeft(lower, evs, p)
  }

  lemma LeftIsMet(lower: Tree, es: seq<Entry>)
    requires Replay(State(lower, map[], Done), es).status.Done?
    ensures var r := Replay(State(lower, map[], Done), es);
            && (SomeThroughIn(r.tree, r.modes) <==> SomeSymlinkLeft(lower, Events(es)))
            && (SomeObstructedIn(r.tree, r.modes) <==> SomePlugLeft(lower, Events(es)))
  {
    forall p
      ensures var r := Replay(State(lower, map[], Done), es);
              && (p in r.modes <==> Recorded(Events(es), p))
              && (Through(r.tree, p) <==> SymlinkLeft(lower, Events(es), p))
              && (Blocked(r.tree, p) <==> PlugLeft(lower, Events(es), p))
    {
      LeftIsThere(lower, es, p);
    }
  }

  lemma BenignIsNeither(t: Tree, modes: map<Path, nat>)
    ensures Benign(t, modes) <==> !SomeThroughIn(t, modes) && !SomeObstructedIn(t, modes)
  {
  }

  /** Which streams set modes where they were recorded, in terms of the entries: neither at a recorded directory nor
      above it do the last entries leave a symlink, nor above it anything else that is no directory. The phase fails
      without being led out exactly over the latter; and unless there is such a thing it is led out exactly over the
      former. */
  lemma StreamSetsItsModes(lower: Tree, es: seq<Entry>, follow: Follow, result: Phase)
    requires AllSearchable(lower) && LayerApplied(lower, es, follow, result)
    requires Replay(State(lower, map[], Done), es).status.Done?
    ensures var evs := Events(es);
            && (result.escapes == [] && result.status.Done? <==>
                  !SomeSymlinkLeft(lower, evs) && !SomePlugLeft(lower, evs))
            && (result.escapes == [] ==> (result.status.Failed? <==> SomePlugLeft(lower, evs)))
            && (!SomePlugLeft(lower, evs) ==> (result.escapes != [] <==> SomeSymlinkLeft(lower, evs)))
  {
    var r := Replay(State(lower, map[], Done), es);
    LayerExactly(lower, es, follow, result);
    LeftIsMet(lower, es);
    BenignIsNeither(r.tree, r.modes);
  }

  /** A regular file the stream leaves where it named a directory. */
  ghost predicate FileInPlace(lower: Tree, evs: seq<Event>, p: Path) {
    Recorded(evs, p) && Left(lower, evs, p).Some? && Left(lower, evs, p).value.File?
  }

  /** Each such file has the mode last named for the directory. */
  ghost predicate ModesAgree(lower: Tree, evs: seq<Event>) {
    forall p :: FileInPlace(lower, evs, p) ==> Left(lower, evs, p).value.mode == TouchMode(evs, p, None).value
  }

  /** Every file of the tree is as the last entries left it. */
  ghost predicate FilesAsLeft(lower: Tree, evs: seq<Event>, t: Tree) {
    forall p :: p in t && t[p].File? ==> Left(lower, evs, p) == Some(t[p])
  }

  /** When the phase goes well, every file is as the stream left it, mode included, if and only if each file left where
      a directory was named happens to have the mode last named for that. */
  lemma StreamLeavesItsFiles(lower: Tree, es: seq<Entry>, follow: Follow, result: Phase)
    requires AllSearchable(lower) && LayerApplied(lower, es, follow, result)
    requires Replay(State(lower, map[], Done), es).status.Done? && result.status.Done? && result.escapes == []
    ensures FilesAsLeft(lower, Events(es), result.tree) <==> ModesAgree(lower, Events(es))
  {
    var s := State(lower, map[], Done);
    var r := Replay(s, es);
    LayerExactly(lower, es, follow, result);
    forall p
      ensures Lookup(r.tree, p) == Left(lower, Events(es), p)
      ensures RecordedMode(r.modes, p) == TouchMode(Events(es), p, None)
    {
      ReplayIsPointwise(s, es, p);
    }
    SettledFiles(r.tree, r.modes, lower, Events(es));
  }

  lemma SettledFiles(t: Tree, modes: map<Path, nat>, lower: Tree, evs: seq<Event>)
    requires forall p :: Lookup(t, p) == Left(lower, evs, p)
    requires forall p :: RecordedMode(modes, p) == TouchMode(evs, p, None)
    ensures FilesAsLeft(lower, evs, Settle(t, modes)) <==> ModesAgree(lower, evs)
  {
    var u := Settle(t, modes);
    forall p
      ensures p in u && u[p].File? <==> p in t && t[p].File?
      ensures FileInPlace(lower, evs, p) <==> p in modes && p in t && t[p].File?
    {
      assert Lookup(t, p) == Left(lower, evs, p) && RecordedMode(modes, p) == TouchMode(evs, p, None);
    }
    if FilesAsLeft(lower, evs, u) {
      forall p | FileInPlace(lower, evs, p)
        ensures Left(lower, evs, p).value.mode == TouchMode(evs, p, None).value
      {
        assert p in u && u[p].File? && Left(lower, evs, p) == Some(u[p]);
      }
    }
    if ModesAgree(lower, evs) {
      forall p | p in u && u[p].File?
        ensures Left(lower, evs, p) == Some(u[p])
      {
        assert p in modes ==> FileInPlace(lower, evs, p);
      }
    }
  }

  lemma NodesAreReached(t: Tree, p: Path)
    requires Closed(t) && IsDir(t, p)
    ensures Plainly(t, p)
  {
    forall k | 0 <= k < |p| && p[..k] in t
      ensures t[p[..k]].Dir?
    {
      AncestorsAreDirectories(t, p, p[..k]);
    }
  }

  predicate DirectoryOrNothing(node: Option<Node>) {
    node.Some? ==> node.value.Dir?
  }

  /** In the overlay so far, `g` and all above it are directories or missing. */
  ghost predicate ClearIn(lower: Tree, whiteouts: seq<Event>, additions: seq<Event>, g: Path) {
    forall k :: 1 <= k <= |g| ==> DirectoryOrNothing(Overlay(lower, whiteouts, additions, g[..k]))
  }

  /** The next event finds clear parents in the overlay of what precedes it, and a leaf finds its directory. */
  ghost predicate Lands(lower: Tree, whiteouts: seq<Event>, additions: seq<Event>, ev: Event) {
    && (forall i :: 0 <= i < |Guards(ev)| ==> ClearIn(lower, whiteouts, additions, Guards(ev)[i]))
    && (ev.AddLeaf? ==> Overlay(lower, whiteouts, additions, Up(ev.at)).Some?)
  }

  ghost predicate AllLand(lower: Tree, whiteouts: seq<Event>, additions: seq<Event>)
    decreases |whiteouts| + |additions|
  {
    if additions != [] then
      var front := additions[..|additions| - 1];
      AllLand(lower, whiteouts, front) && Lands(lower, whiteouts, front, additions[|additions| - 1])
    else if whiteouts != [] then
      var front := whiteouts[..|whiteouts| - 1];
      AllLand(lower, front, []) && Lands(lower, front, [], whiteouts[|whiteouts| - 1])
    else true
  }

  /** `t` is the tree the overlay describes. */
  ghost predicate Realises(t: Tree, lower: Tree, whiteouts: seq<Event>, additions: seq<Event>) {
    forall p :: Lookup(t, p) == Overlay(lower, whiteouts, additions, p)
  }

  lemma RealisedAt(t: Tree, lower: Tree, whiteouts: seq<Event>, additions: seq<Event>, p: Path)
    requires Realises(t, lower, whiteouts, additions)
    ensures Overlay(lower, whiteouts, additions, p) == Lookup(t, p)
  {
  }

  lemma ClearExactly(t: Tree, lower: Tree, whiteouts: seq<Event>, additions: seq<Event>, g: Path)
    requires Closed(t) && Realises(t, lower, whiteouts, additions)
    ensures CheckParents(t, g).Done? <==> ClearIn(lower, whiteouts, additions, g)
  {
    CheckParentsMeaning(t, g);
    forall k | 1 <= k <= |g|
      ensures DirectoryOrNothing(Overlay(lower, whiteouts, additions, g[..k])) <==> (g[..k] in t ==> t[g[..k]].Dir?)
    {
      RealisedAt(t, lower, whiteouts, additions, g[..k]);
    }
  }

  lemma LandsExactly(t: Tree, lower: Tree, whiteouts: seq<Event>, additions: seq<Event>, ev: Event)
    requires Closed(t) && (IsWhiteout(ev) || IsAddition(ev)) && CleanEvent(ev)
    requires Realises(t, lower, whiteouts, additions)
    ensures Effect(t, ev).status.Done? <==> Lands(lower, whiteouts, additions, ev)
  {
    var g := Guards(ev)[0];
    assert Guards(ev) == [g];
    FirstGuard(t, ev, g);
    ClearExactly(t, lower, whiteouts, additions, g);
    if ev.AddLeaf? {
      RealisedAt(t, lower, whiteouts, additions, Up(ev.at));
    }
  }

  lemma LayerFront(es: seq<Entry>, whiteouts: seq<Event>, additions: seq<Event>)
    returns (fewer: seq<Event>, less: seq<Event>)
    requires es != [] && Layer(es, whiteouts, additions)
    ensures Layer(es[..|es| - 1], fewer, less)
    ensures additions != [] ==> fewer == whiteouts && less == additions[..|additions| - 1]
                                && additions[|additions| - 1] == Decode(es[|es| - 1])
    ensures additions == [] ==> fewer == whiteouts[..|whiteouts| - 1] && less == []
                                && whiteouts != [] && whiteouts[|whiteouts| - 1] == Decode(es[|es| - 1])
    ensures IsWhiteout(Decode(es[|es| - 1])) || IsAddition(Decode(es[|es| - 1]))
  {
    var all := whiteouts + additions;
    assert Events(es)[..|es| - 1] == Events(es[..|es| - 1]) && Events(es)[|es| - 1] == Decode(es[|es| - 1]);
    if additions != [] {
      fewer, less := whiteouts, additions[..|additions| - 1];
      assert additions == less + [additions[|additions| - 1]];
      AdditionsFront(less, additions[|additions| - 1]);
      assert all[..|all| - 1] == fewer + less;
    } else {
      fewer, less := whiteouts[..|whiteouts| - 1], [];
      assert all == whiteouts;
      assert all[..|all| - 1] == fewer + less;
    }
  }

  /** Exactly when a layer goes through, in terms of the declarative overlays of its beginnings. */
  lemma {:induction false} LayerGoesThrough(lower: Tree, es: seq<Entry>, whiteouts: seq<Event>, additions: seq<Event>)
    requires Closed(lower) && Layer(es, whiteouts, additions)
    ensures Replay(State(lower, map[], Done), es).status.Done? <==> AllLand(lower, whiteouts, additions)
    decreases |es|
  {
    if es == [] {
      assert whiteouts + additions == [];
    } else {
      var front, e := es[..|es| - 1], es[|es| - 1];
      var fewer, less := LayerFront(es, whiteouts, additions);
      LayerGoesThrough(lower, front, fewer, less);
      var before := Replay(State(lower, map[], Done), front);
      if before.status.Done? {
        ReplayKeepsClosed(State(lower, map[], Done), front);
        DecodeIsClean(e);
        forall p
          ensures Lookup(before.tree, p) == Overlay(lower, fewer, less, p)
        {
          ReplayIsOverlay(lower, front, fewer, less, p);
        }
        LandsExactly(before.tree, lower, fewer, less, Decode(e));
      }
    }
  }
}
