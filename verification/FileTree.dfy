/** A root filesystem as a finite map from paths to nodes; the empty path is the root directory itself. */
module FileTree {
  import opened Text
  import opened Paths

  datatype Node =
    | Dir(mode: nat)
    | File(content: string, mode: nat)
    | Symlink(target: string)
    | Special

  type Tree = map<Path, Node>

  datatype Error =
    | Unsafe
    | SymlinkParent
    | NotDirectory
    | Missing
    | Exists
    | BadWhiteout
    | Unsupported
    | Denied
    | ThroughSymlink

  datatype Status = Done | Failed(error: Error)

  /** A tree after a system call or an entry, and how that ended. */
  datatype Outcome = Outcome(tree: Tree, status: Status)

  const DEFAULT_DIR_MODE: nat := 0x1ED // 0o755

  /** `fs.FileMode(mode).Perm()`: the low nine bits of a two's-complement mode. */
  function Perm(mode: int): nat {
    mode % 0x200
  }

  /** The owner's search bit, 0o100. */
  predicate Searchable(mode: nat) {
    mode / 0x40 % 2 == 1
  }

  /** That is the odd owner digits of an octal mode. */
  lemma OddOwnersSearch(owner: nat, rest: nat)
    requires rest < 64
    ensures Searchable(64 * owner + rest) <==> owner % 2 == 1
  {
    assert (64 * owner + rest) / 0x40 == owner;
  }

  predicate IsDir(t: Tree, p: Path) {
    p in t && t[p].Dir?
  }

  /** Every name in the tree is one a file system can hold. */
  ghost predicate RealTree(t: Tree) {
    forall p | p in t :: RealPath(p)
  }

  /** Every node but the root hangs off a directory; the root, if there is one, is a directory. */
  ghost predicate Closed(t: Tree) {
    && ([] in t ==> t[[]].Dir?)
    && forall p | p in t && p != [] :: IsDir(t, Parent(p))
  }

  ghost predicate AllSearchable(t: Tree) {
    forall p | IsDir(t, p) :: Searchable(t[p].mode)
  }

  function Lookup(t: Tree, p: Path): Option<Node> {
    if p in t then Some(t[p]) else None
  }

  lemma {:induction false} AncestorsAreDirectories(t: Tree, p: Path, q: Path)
    requires Closed(t) && p in t && q < p
    ensures IsDir(t, q)
    decreases |p|
  {
    if |q| < |p| - 1 {
      AncestorsAreDirectories(t, Parent(p), q);
    } else {
      assert q == Parent(p);
    }
  }

  /** The prefixes of `p`, from the root to `p` itself. */
  function Prefixes(p: Path): (s: set<Path>)
    ensures forall q :: q in s <==> q <= p
  {
    var s := set k | 0 <= k <= |p| :: p[..k];
    assert forall q :: q <= p ==> q == p[..|q|];
    s
  }

  /** The tree without `p` and everything below it. */
  function Without(t: Tree, p: Path): Tree {
    map q | q in t && !(p <= q) :: t[q]
  }

  /** The tree without what lies strictly below `p`. */
  function Emptied(t: Tree, p: Path): Tree {
    map q | q in t && !(p < q) :: t[q]
  }

  /** `p` as a directory: one that exists is kept, anything else there is replaced, missing prefixes appear. */
  function WithDirectory(t: Tree, p: Path): Tree {
    map q | q in t.Keys + Prefixes(p) ::
      if q <= p && !IsDir(t, q) then Dir(DEFAULT_DIR_MODE) else t[q]
  }

  /** `p` as the given leaf, in place of whatever was at or below it. */
  function WithLeaf(t: Tree, p: Path, node: Node): Tree {
    Without(t, p)[p := node]
  }

  /** No component of `p` below the root is a symlink or another non-directory: what
      ensureOCINoSymlinkParents accepts. */
  predicate ParentsClear(t: Tree, p: Path) {
    forall k :: 1 <= k <= |p| && p[..k] in t ==> t[p[..k]].Dir?
  }

  /** A system call on `p` would follow a symlink in one of its proper ancestors. */
  predicate Crosses(t: Tree, p: Path) {
    exists k :: 0 <= k < |p| && p[..k] in t && t[p[..k]].Symlink?
  }

  /** A proper ancestor of `p` exists and is neither a directory nor a symlink. */
  predicate Blocked(t: Tree, p: Path) {
    exists k :: 0 <= k < |p| && p[..k] in t && !t[p[..k]].Dir? && !t[p[..k]].Symlink?
  }

  lemma ClearParentsReach(t: Tree, p: Path, up: Path)
    requires Closed(t) && p != [] && up == Parent(p) && ParentsClear(t, up)
    ensures !Crosses(t, p) && !Blocked(t, p)
  {
    forall k | 0 <= k < |p| && p[..k] in t
      ensures t[p[..k]].Dir?
    {
      assert p[..k] == up[..k];
    }
  }

  lemma NothingBelow(t: Tree, p: Path)
    requires Closed(t) && !IsDir(t, p)
    ensures forall q | q in t :: !(p < q)
  {
    forall q | q in t && p < q
      ensures false
    {
      AncestorsAreDirectories(t, q, p);
    }
  }

  lemma PrefixOrSelf(p: Path, q: Path)
    requires p <= q
    ensures p == q || p < q
  {
  }

  lemma ExistingRemoved(t: Tree, p: Path)
    requires Closed(t)
    ensures p !in t ==> Without(t, p) == t
    ensures p in t && !t[p].Dir? ==> t - {p} == Without(t, p)
  {
    if !IsDir(t, p) {
      NothingBelow(t, p);
      forall q | q in t && p <= q
        ensures q == p
      {
        PrefixOrSelf(p, q);
      }
      WithoutOne(t, p);
    }
  }

  lemma WithoutOne(t: Tree, p: Path)
    requires forall q | q in t && p <= q :: q == p
    ensures Without(t, p) == t - {p}
    ensures p !in t ==> t - {p} == t
  {
    var rest := Without(t, p);
    assert forall q :: q in rest <==> q in t && q != p;
  }

  lemma PrefixBelow(t: Tree, p: Path, q: Path)
    requires Closed(t) && p != [] && ParentsClear(t, Parent(p)) && q <= p
    ensures p in t ==> q in t
    ensures q in t && q != p ==> t[q].Dir?
  {
    if q != p {
      assert q == Parent(p)[..|q|];
      if p in t {
        AncestorsAreDirectories(t, p, q);
      }
    }
  }

  lemma AboveIsDirectory(t: Tree, p: Path, q: Path)
    requires Closed(t) && p != [] && IsDir(t, Parent(p)) && q <= p && q != p
    ensures IsDir(t, q)
  {
    PrefixOrSelf(q, p);
    if q != Parent(p) {
      AncestorsAreDirectories(t, Parent(p), q);
    }
  }

  /** Under an existing directory, a missing path becomes one more directory and nothing else changes. */
  lemma NewDirectory(t: Tree, p: Path)
    requires Closed(t) && p != [] && IsDir(t, Parent(p)) && p !in t
    ensures WithDirectory(t, p) == t[p := Dir(DEFAULT_DIR_MODE)]
  {
    forall q | q <= p && q != p
      ensures IsDir(t, q)
    {
      AboveIsDirectory(t, p, q);
    }
    OnlyItIsNew(t, p);
  }

  lemma OnlyItIsNew(t: Tree, p: Path)
    requires p !in t && forall q: Path | q <= p && q != p :: IsDir(t, q)
    ensures WithDirectory(t, p) == t[p := Dir(DEFAULT_DIR_MODE)]
  {
    var w, v := WithDirectory(t, p), t[p := Dir(DEFAULT_DIR_MODE)];
    assert forall q :: q in w <==> q in v;
    assert forall q | q in w :: w[q] == v[q];
  }
}
