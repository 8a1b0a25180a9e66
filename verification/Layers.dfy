/** What one tar entry of a layer means, and what a stream of them does to a tree. */
module Layers {
  import opened Paths
  import opened FileTree

  datatype Kind =
    | DirectoryKind
    | RegularKind(content: string)
    | SymlinkKind(link: string)
    | HardLinkKind(link: string)
    | OtherKind

  /** A decoded tar header with its content. */
  datatype Entry = Entry(name: string, kind: Kind, mode: int)

  const WHITEOUT: string := ".wh."
  const OPAQUE: string := ".wh..wh..opq"

  predicate WhiteoutName(n: Name) {
    WHITEOUT <= n
  }

  /** An entry as the change it asks for. `under` is the directory whose path is checked first. */
  datatype Event =
    | Skip
    | Reject(under: Path, error: Error)
    | Hide(under: Path, target: Path)
    | Empty(at: Path)
    | AddDirectory(at: Path, mode: nat)
    | AddLeaf(at: Path, node: Node)
    | AddLink(at: Path, source: Path)

  function Decode(e: Entry): Event {
    match CleanArchivePath(e.name)
    case Err(_) => Reject([], Unsafe)
    case Ok(rel) =>
      if rel == [] then Skip
      else if WhiteoutName(Base(rel)) then DecodeWhiteout(rel)
      else
        match e.kind
        case DirectoryKind => AddDirectory(rel, Perm(e.mode))
        case RegularKind(content) => AddLeaf(rel, File(content, Perm(e.mode)))
        case SymlinkKind(link) => AddLeaf(rel, Symlink(link))
        case HardLinkKind(link) =>
          (match CleanArchivePath(link)
           case Err(_) => Reject(Parent(rel), Unsafe)
           case Ok(source) => AddLink(rel, source))
        case OtherKind => Reject(Parent(rel), Unsupported)
  }

  function DecodeWhiteout(rel: Path): Event
    requires rel != []
  {
    if Base(rel) == OPAQUE then Empty(Parent(rel))
    else if |Base(rel)| <= |WHITEOUT| then Reject(Parent(rel), BadWhiteout)
    else
      var target := Lexical(Parent(rel) + [Base(rel)[|WHITEOUT|..]]);
      if target != [] && target[0] == ".." then Reject(Parent(rel), Unsafe)
      else Hide(Parent(rel), target)
  }

  function Up(p: Path): Path {
    if p == [] then [] else Parent(p)
  }

  /** The directories whose paths are checked for symlinks before the event acts. */
  function Guards(ev: Event): seq<Path> {
    match ev
    case Skip => []
    case Reject(under, _) => [under]
    case Hide(under, _) => [under]
    case Empty(at) => [at]
    case AddDirectory(at, _) => [Up(at)]
    case AddLeaf(at, _) => [Up(at)]
    case AddLink(at, source) => [Up(at), Up(source)]
  }

  /** The first component of `p`, from length `k` on, that is in the tree and not a directory. */
  function FirstObstacle(t: Tree, p: Path, k: nat): Status
    requires 1 <= k <= |p| + 1
    decreases |p| - k
  {
    if k > |p| || p[..k] !in t then Done
    else if t[p[..k]].Symlink? then Failed(SymlinkParent)
    else if !t[p[..k]].Dir? then Failed(NotDirectory)
    else FirstObstacle(t, p, k + 1)
  }

  function CheckParents(t: Tree, p: Path): Status {
    FirstObstacle(t, p, 1)
  }

  lemma MissingBelow(t: Tree, p: Path, k: nat, j: nat)
    requires Closed(t) && k < j <= |p| && p[..k] !in t
    ensures p[..j] !in t
  {
    if p[..j] in t {
      assert p[..k] == p[..j][..k];
      AncestorsAreDirectories(t, p[..j], p[..k]);
    }
  }

  /** `p[..k]` is the first thing on the way along `p` that is there and is no directory. */
  ghost predicate FirstInTheWay(t: Tree, p: Path, k: nat) {
    && 1 <= k <= |p| && p[..k] in t && !t[p[..k]].Dir?
    && forall j :: 1 <= j < k && p[..j] in t ==> t[p[..j]].Dir?
  }

  lemma {:induction false} FirstObstacleMeaning(t: Tree, p: Path, k: nat)
    requires Closed(t) && 1 <= k <= |p| + 1
    requires forall j :: 1 <= j < k && p[..j] in t ==> t[p[..j]].Dir?
    ensures FirstObstacle(t, p, k).Done? <==> ParentsClear(t, p)
    decreases |p| - k
  {
    if k <= |p| {
      if p[..k] !in t {
        forall j | k < j <= |p|
          ensures p[..j] !in t
        {
          MissingBelow(t, p, k, j);
        }
      } else if t[p[..k]].Dir? {
        FirstObstacleMeaning(t, p, k + 1);
      }
    }
  }

  /** ensureOCINoSymlinkParents accepts exactly the paths with no obstacle on them. */
  lemma CheckParentsMeaning(t: Tree, p: Path)
    requires Closed(t)
    ensures CheckParents(t, p).Done? <==> ParentsClear(t, p)
  {
    FirstObstacleMeaning(t, p, 1);
  }

  lemma BeforeTheObstacle(t: Tree, p: Path, k: nat, n: nat)
    requires Closed(t) && k < n <= |p| && p[..n] in t
    ensures IsDir(t, p[..k])
  {
    assert p[..n][..k] == p[..k];
    AncestorsAreDirectories(t, p[..n], p[..k]);
  }

  lemma {:induction false} ObstacleIsMet(t: Tree, p: Path, k: nat, n: nat)
    requires Closed(t) && 1 <= k <= n && FirstInTheWay(t, p, n)
    ensures FirstObstacle(t, p, k) == FirstObstacle(t, p, n)
    decreases n - k
  {
    if k < n {
      BeforeTheObstacle(t, p, k, n);
      ObstacleIsMet(t, p, k + 1, n);
    }
  }

  /** Of the first obstacle it says whether it is a symlink. */
  lemma ObstacleIsNamed(t: Tree, p: Path, n: nat)
    requires Closed(t) && FirstInTheWay(t, p, n)
    ensures CheckParents(t, p) == Failed(if t[p[..n]].Symlink? then SymlinkParent else NotDirectory)
  {
    ObstacleIsMet(t, p, 1, n);
  }

  function CheckAll(t: Tree, guards: seq<Path>): Status
    decreases |guards|
  {
    if guards == [] then Done
    else if CheckParents(t, guards[0]).Failed? then CheckParents(t, guards[0])
    else CheckAll(t, guards[1..])
  }

  /** What was at `p` is gone even when the new node cannot be made. */
  function Added(t: Tree, p: Path, node: Node): Outcome {
    if Up(p) in Without(t, p) then Outcome(WithLeaf(t, p, node), Done)
    else Outcome(Without(t, p), Failed(Missing))
  }

  function Linked(t: Tree, p: Path, source: Path): Outcome {
    var rest := Without(t, p);
    if Up(p) !in rest || source !in rest then Outcome(rest, Failed(Missing))
    else if !rest[source].File? then Outcome(rest, Failed(Unsupported))
    else Outcome(WithLeaf(t, p, rest[source]), Done)
  }

  /** The effect of one event, stated on the tree as a whole. */
  function Effect(t: Tree, ev: Event): Outcome {
    var checked := CheckAll(t, Guards(ev));
    if checked.Failed? then Outcome(t, checked)
    else
      match ev
      case Skip => Outcome(t, Done)
      case Reject(_, error) => Outcome(t, Failed(error))
      case Hide(_, target) => Outcome(Without(t, target), Done)
      case Empty(at) => Outcome(Emptied(t, at), Done)
      case AddDirectory(at, _) => Outcome(WithDirectory(t, at), Done)
      case AddLeaf(at, node) => Added(t, at, node)
      case AddLink(at, source) => Linked(t, at, source)
  }

  /** The tree, the directory modes recorded so far, and whether the stream is still good. */
  datatype State = State(tree: Tree, modes: map<Path, nat>, status: Status)

  function Step(s: State, e: Entry): State {
    var ev := Decode(e);
    var out := Effect(s.tree, ev);
    State(out.tree,
          if out.status.Done? && ev.AddDirectory? then s.modes[ev.at := ev.mode] else s.modes,
          out.status)
  }

  /** The stream up to its end or its first failure. */
  function Replay(s: State, es: seq<Entry>): State
    decreases |es|
  {
    if es == [] then s
    else
      var before := Replay(s, es[..|es| - 1]);
      if before.status.Failed? then before else Step(before, es[|es| - 1])
  }

  ghost predicate WellFormed(s: State) {
    && Closed(s.tree)
    && forall p | p in s.modes :: p != []
  }

  /** What an event names is clean and never the root, except for a whiteout of the root. */
  ghost predicate CleanEvent(ev: Event) {
    match ev
    case Skip => true
    case Reject(under, _) => CleanPath(under)
    case Hide(under, target) => CleanPath(under) && CleanPath(target) && Up(target) <= under
    case Empty(at) => CleanPath(at)
    case AddDirectory(at, mode) => CleanPath(at) && at != [] && !WhiteoutName(Base(at)) && mode < 0x200
    case AddLeaf(at, node) => CleanPath(at) && at != [] && !WhiteoutName(Base(at)) && (node.File? || node.Symlink?)
    case AddLink(at, source) => CleanPath(at) && at != [] && !WhiteoutName(Base(at)) && CleanPath(source)
  }

  lemma WhiteoutIsClean(rel: Path)
    requires CleanPath(rel) && rel != [] && WhiteoutName(Base(rel))
    ensures CleanEvent(DecodeWhiteout(rel))
  {
    var under := Parent(rel);
    if Base(rel) != OPAQUE && |Base(rel)| > |WHITEOUT| {
      var victim := Base(rel)[|WHITEOUT|..];
      VictimIsPlain(under, victim);
      assert CleanPath(Push(under, victim)) || Push(under, victim)[0] == "..";
    }
  }

  lemma VictimIsPlain(under: Path, victim: Name)
    requires CleanPath(under) && victim != "" && '/' !in victim && '\\' !in victim
    ensures Lexical(under + [victim]) == Push(under, victim)
  {
    LexicalOfClean(under);
    assert (under + [victim])[..|under|] == under;
  }

  lemma DecodeIsClean(e: Entry)
    ensures CleanEvent(Decode(e))
  {
    var name := CleanArchivePath(e.name);
    if name.Ok? && name.value != [] && WhiteoutName(Base(name.value)) {
      WhiteoutIsClean(name.value);
    }
  }

  lemma RemovalKeepsClosed(t: Tree, p: Path)
    requires Closed(t)
    ensures Closed(Without(t, p)) && Closed(Emptied(t, p))
  {
    forall q | q in Without(t, p) && q != []
      ensures IsDir(Without(t, p), Parent(q))
    {
      assert p <= Parent(q) ==> p <= q;
    }
    forall q | q in Emptied(t, p) && q != []
      ensures IsDir(Emptied(t, p), Parent(q))
    {
      assert p < Parent(q) ==> p < q;
    }
  }

  lemma LeafKeepsClosed(t: Tree, at: Path, node: Node)
    requires Closed(t) && at != [] && Parent(at) in Without(t, at) && CheckParents(t, Parent(at)).Done?
    ensures Closed(WithLeaf(t, at, node))
  {
    RemovalKeepsClosed(t, at);
    CheckParentsMeaning(t, Parent(at));
    var up := Parent(at);
    assert up == up[..|up|];
    forall q | q in WithLeaf(t, at, node) && q != []
      ensures IsDir(WithLeaf(t, at, node), Parent(q))
    {
      if q != at {
        assert q in Without(t, at) && IsDir(Without(t, at), Parent(q));
        assert Parent(q) != at;
      }
    }
  }

  lemma DirectoryKeepsClosed(t: Tree, at: Path)
    requires Closed(t) && at != [] && CheckParents(t, Parent(at)).Done?
    ensures Closed(WithDirectory(t, at))
  {
    CheckParentsMeaning(t, Parent(at));
    forall p | p in WithDirectory(t, at) && p != []
      ensures IsDir(WithDirectory(t, at), Parent(p))
    {
      DirectoryKeepsParents(t, at, p);
    }
  }

  lemma EffectKeepsClosed(t: Tree, ev: Event)
    requires Closed(t) && CleanEvent(ev)
    ensures Closed(Effect(t, ev).tree)
  {
    if CheckAll(t, Guards(ev)).Done? {
      match ev
      case Hide(_, target) => RemovalKeepsClosed(t, target);
      case Empty(at) => RemovalKeepsClosed(t, at);
      case AddDirectory(at, _) => DirectoryKeepsClosed(t, at);
      case AddLeaf(at, node) => AddedKeepsClosed(t, at, node);
      case AddLink(at, source) => LinkedKeepsClosed(t, at, source);
      case _ =>
    }
  }

  lemma LinkedKeepsClosed(t: Tree, at: Path, source: Path)
    requires Closed(t) && at != [] && CheckParents(t, Parent(at)).Done?
    ensures Closed(Linked(t, at, source).tree)
  {
    RemovalKeepsClosed(t, at);
    if source in Without(t, at) {
      AddedKeepsClosed(t, at, Without(t, at)[source]);
    }
  }

  lemma AddedKeepsClosed(t: Tree, at: Path, node: Node)
    requires Closed(t) && at != [] && CheckParents(t, Parent(at)).Done?
    ensures Closed(Without(t, at))
    ensures Parent(at) in Without(t, at) ==> Closed(WithLeaf(t, at, node))
  {
    RemovalKeepsClosed(t, at);
    if Parent(at) in Without(t, at) {
      LeafKeepsClosed(t, at, node);
    }
  }

  lemma DirectoryKeepsParents(t: Tree, at: Path, p: Path)
    requires Closed(t) && at != [] && ParentsClear(t, Parent(at))
    requires p in WithDirectory(t, at) && p != []
    ensures IsDir(WithDirectory(t, at), Parent(p))
  {
    if p <= at {
      assert Parent(p) <= at;
    }
  }

  lemma {:induction false} ReplayKeepsClosed(s: State, es: seq<Entry>)
    requires WellFormed(s)
    ensures WellFormed(Replay(s, es))
    decreases |es|
  {
    if es != [] {
      ReplayKeepsClosed(s, es[..|es| - 1]);
      DecodeIsClean(es[|es| - 1]);
      EffectKeepsClosed(Replay(s, es[..|es| - 1]).tree, Decode(es[|es| - 1]));
    }
  }

  lemma TwoSteps(s: State, a: Entry, b: Entry)
    requires s.status.Done?
    ensures Replay(s, [a, b]) == if Step(s, a).status.Failed? then Step(s, a) else Step(Step(s, a), b)
  {
    assert [a, b][..1] == [a] && [a][..0] == [];
    assert Replay(s, []) == s;
    assert Replay(s, [a]) == Step(s, a);
  }
}
